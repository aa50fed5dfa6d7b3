/** The string operations the scripts share. */
module Text {

  /** The characters `str.strip` removes, within ASCII. */
  predicate IsSpace(c: char) {
    c == ' ' || ('\t' <= c <= '\r') || ('\U{1c}' <= c <= '\U{1f}')
  }

  function StripLeft(s: string): (t: string)
    ensures |t| <= |s| && t == s[|s| - |t|..]
    ensures forall i :: 0 <= i < |s| - |t| ==> IsSpace(s[i])
    ensures t == "" || !IsSpace(t[0])
  {
    if s == "" then ""
    else if !IsSpace(s[0]) then s
    else
      assert forall i :: 0 < i < |s| ==> s[i] == s[1..][i - 1];
      StripLeft(s[1..])
  }

  function StripRight(s: string): (t: string)
    ensures |t| <= |s| && t == s[..|t|]
    ensures forall i :: |t| <= i < |s| ==> IsSpace(s[i])
    ensures t == "" || !IsSpace(t[|t| - 1])
  {
    if s == "" then ""
    else if !IsSpace(s[|s| - 1]) then s
    else StripRight(s[..|s| - 1])
  }

  function Strip(s: string): (t: string)
    ensures |t| <= |s|
    ensures s != "" && !IsSpace(s[0]) && !IsSpace(s[|s| - 1]) ==> t == s
    ensures t == "" || (!IsSpace(t[0]) && !IsSpace(t[|t| - 1]))
  {
    StripRight(StripLeft(s))
  }

  /** Nothing but the characters that are space. */
  predicate Blank(s: string) {
    forall c :: c in s ==> c in " \t\n\U{0b}\U{0c}\r\U{1c}\U{1d}\U{1e}\U{1f}"
  }

  /** Empty, or with something else than space at both ends. */
  predicate Bare(s: string) {
    s == "" || (!Blank([s[0]]) && !Blank([s[|s| - 1]]))
  }

  lemma SpacesAre(c: char)
    ensures IsSpace(c) <==> Blank([c])
  {
    assert [c] == "" + [c];
    assert c in [c];
  }

  lemma {:induction false} BlankAt(s: string, i: nat)
    requires i < |s| && Blank(s)
    ensures IsSpace(s[i])
  {
    assert s[i] in s;
  }

  lemma {:induction false} StripLeftTakes(left: string, core: string)
    requires Blank(left) && (core == "" || !IsSpace(core[0]))
    ensures StripLeft(left + core) == core
  {
    if left == "" {
      assert left + core == core;
    } else {
      BlankAt(left, 0);
      assert left[0] in left && forall c :: c in left[1..] ==> c in left;
      assert (left + core)[1..] == left[1..] + core;
      StripLeftTakes(left[1..], core);
    }
  }

  lemma {:induction false} OneSpaceLess(t: string, c: char)
    requires IsSpace(c)
    ensures StripRight(t + [c]) == StripRight(t)
  {
    assert (t + [c])[..|t|] == t;
    hide IsSpace;
  }

  lemma {:induction false} NothingToTake(core: string)
    requires core == "" || !IsSpace(core[|core| - 1])
    ensures StripRight(core) == core
  {
  }

  lemma {:induction false} StripRightTakes(core: string, right: string)
    requires Blank(right) && (core == "" || !IsSpace(core[|core| - 1]))
    ensures StripRight(core + right) == core
  {
    if right == "" {
      assert core + right == core;
      NothingToTake(core);
    } else {
      var k := |right| - 1;
      BlankAt(right, k);
      BlankFront(right, k);
      hide *;
      StripRightTakes(core, right[..k]);
      assert core + right == (core + right[..k]) + [right[k]];
      OneSpaceLess(core + right[..k], right[k]);
    }
  }

  lemma {:induction false} BlankFront(s: string, k: nat)
    requires k <= |s| && Blank(s)
    ensures Blank(s[..k])
  {
    assert forall c :: c in s[..k] ==> c in s;
  }

  /** Stripping takes the space around a text and nothing else. */
  lemma {:induction false} StripTakesTheSpace(left: string, core: string, right: string)
    requires Blank(left) && Blank(right) && Bare(core)
    ensures Strip(left + core + right) == core
  {
    hide Blank, IsSpace;
    if core == "" {
      assert left + core + right == left + right;
      BlankStrips(left + right) by {
        AllBlank(left, right);
      }
    } else {
      SpacesAre(core[0]);
      SpacesAre(core[|core| - 1]);
      assert left + core + right == left + (core + right);
      StripLeftTakes(left, core + right);
      StripRightTakes(core, right);
    }
  }

  lemma {:induction false} AllBlank(left: string, right: string)
    requires Blank(left) && Blank(right)
    ensures Blank(left + right)
  {
  }

  lemma {:induction false} BlankStrips(s: string)
    requires Blank(s)
    ensures Strip(s) == ""
  {
    assert s + "" == s;
    StripLeftTakes(s, "");
  }

  /** What stripping leaves, and what it took. */
  lemma {:induction false} StripSplits(s: string) returns (left: string, right: string)
    ensures Blank(left) && Blank(right) && Bare(Strip(s)) && s == left + Strip(s) + right
  {
    var t := StripLeft(s);
    left, right := s[..|s| - |t|], t[|Strip(s)|..];
    forall c | c in left || c in right
      ensures IsSpace(c)
    {
    }
    hide IsSpace;
    AllSpace(left);
    AllSpace(right);
    if Strip(s) != "" {
      SpacesAre(Strip(s)[0]);
      SpacesAre(Strip(s)[|Strip(s)| - 1]);
    }
  }

  lemma {:induction false} AllSpace(s: string)
    requires forall c :: c in s ==> IsSpace(c)
    ensures Blank(s)
  {
    forall c | c in s
      ensures c in " \t\n\U{0b}\U{0c}\r\U{1c}\U{1d}\U{1e}\U{1f}"
    {
      SpacesAre(c);
      assert c in [c];
    }
  }
}
