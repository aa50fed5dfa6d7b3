/** Which texts the condition shorthand accepts, what shape they parse to, and which of
    them read back from print: `parse_condition` of `scripts/build_series_book.py`. */
module ShorthandForms {

  import opened Collections
  import opened Text
  import opened Digits
  import opened Shorthand

  /** The non-blank texts around the connective. */
  function Pieces(text: string, sep: char): seq<string> {
    NonBlank(Split(Strip(text), sep))
  }

  /** The connective that splits this text, if any; an `and` goes before an `or`. */
  function Splitter(text: string): Option<char> {
    if '&' in Strip(text) then Some('&') else if '|' in Strip(text) then Some('|') else None
  }

  lemma {:induction false} PiecesAreSimpler(text: string, p: string)
    requires Splitter(text).Some? && p in Pieces(text, Splitter(text).value)
    ensures Level(p) < Level(text) && Splitter(text).value !in p && ('&' in p ==> '&' in Strip(text))
  {
    StripKeeps(text);
    hide Strip, NonBlank, Split;
    var parts := Split(Strip(text), Splitter(text).value);
    assert p in parts;
    assert forall c :: c in p ==> c in Strip(text);
  }

  lemma {:induction false} AllOrFirstBad(parts: seq<string>, level: nat)
    requires forall p :: p in parts ==> Level(p) < level
    ensures ParseAll(parts, level).Ok? <==> forall p :: p in parts ==> ParseCondition(p).Ok?
    ensures ParseAll(parts, level).Ok? ==> ParsesTo(parts, ParseAll(parts, level).value)
    ensures ParseAll(parts, level).Bad? ==>
              exists k :: 0 <= k < |parts| && ParseCondition(parts[k]) == Bad(ParseAll(parts, level).text)
  {
    hide ParseCondition, Level;
    if parts != [] {
      AllOrFirstBad(parts[1..], level);
      if ParseCondition(parts[0]).Ok? && ParseAll(parts[1..], level).Bad? {
        var k :| 0 <= k < |parts[1..]| && ParseCondition(parts[1..][k]) == Bad(ParseAll(parts[1..], level).text);
        assert ParseCondition(parts[k + 1]) == Bad(ParseAll(parts, level).text);
      }
      assert (forall p :: p in parts ==> ParseCondition(p).Ok?)
        <==> ParseCondition(parts[0]).Ok? && forall p :: p in parts[1..] ==> ParseCondition(p).Ok? by {
        assert parts == [parts[0]] + parts[1..];
      }
    }
  }

  lemma {:induction false} ParseConnective(text: string)
    requires Splitter(text).Some?
    ensures var sep := Splitter(text).value;
            && (forall p :: p in Pieces(text, sep) ==> Level(p) < Level(text))
            && ParseCondition(text) ==
                 match ParseAll(Pieces(text, sep), Level(text))
                 case Ok(parts) => Ok(if sep == '&' then And(parts) else Or(parts))
                 case Bad(part) => Bad(part)
  {
    forall p | p in Pieces(text, Splitter(text).value)
      ensures Level(p) < Level(text)
    {
      PiecesAreSimpler(text, p);
    }
    hide Strip, NonBlank, Split, ParseAll, Level, ReadAtom;
  }

  lemma {:induction false} ParseWhole(text: string)
    requires Splitter(text).None?
    ensures ParseCondition(text) == ReadAtom(Strip(text), text)
  {
    hide Strip, ReadAtom, Level;
  }

  /** A text with a connective is accepted exactly when each piece around it is, and then
      the connective holds exactly those pieces: none, one or more, as many as there are. */
  lemma {:induction false} ConnectiveHoldsItsPieces(text: string)
    requires Splitter(text).Some?
    ensures var sep, r := Splitter(text).value, ParseCondition(text);
            && (r.Ok? <==> forall p :: p in Pieces(text, sep) ==> ParseCondition(p).Ok?)
            && (r.Ok? ==>
                  && (if sep == '&' then r.value.And? else r.value.Or?)
                  && |r.value.parts| == |Pieces(text, sep)|
                  && ParsesTo(Pieces(text, sep), r.value.parts))
            && (r.Bad? ==> exists k :: 0 <= k < |Pieces(text, sep)| && ParseCondition(Pieces(text, sep)[k]) == Bad(r.text))
  {
    ParseConnective(text);
    var pieces := Pieces(text, Splitter(text).value);
    AllOrFirstBad(pieces, Level(text));
    hide Pieces, Splitter, ParseCondition, ParseAll, Level;
  }

  // ----- which texts give a normal form -----

  /** No `or` of fewer than two pieces. */
  predicate TidyClause(text: string) {
    Splitter(text).Some? ==> |Pieces(text, Splitter(text).value)| >= 2
  }

  /** No connective of fewer than two pieces, at the top and below it. */
  predicate Tidy(text: string) {
    TidyClause(text) && (Splitter(text) == Some('&') ==> forall p :: p in Pieces(text, '&') ==> TidyClause(p))
  }

  /** Whatever an atom text holds, what it reads to can be written. */
  lemma {:induction false} ReadAtomsAreWritable(text: string)
    requires Splitter(text).None? && ReadAtom(Strip(text), text).Ok?
    ensures WritableAtom(ReadAtom(Strip(text), text).value)
  {
    var s := Strip(text);
    hide Strip, ReadSigned, NameLength, StripLeft, OpAt, IsNameChar;
    var c := ReadAtom(s, text).value;
    if c.Held? && !c.held {
      assert c.name == s[1..];
      assert c.name != "" ==> c.name[|c.name| - 1] == s[|s| - 1];
    }
  }

  lemma {:induction false} WholeIsAtom(text: string)
    requires Splitter(text).None? && ParseCondition(text).Ok?
    ensures WritableAtom(ParseCondition(text).value)
  {
    ParseWhole(text);
    ReadAtomsAreWritable(text);
    hide Strip, ReadAtom, ParseCondition;
  }

  /** The pieces of an `or` are atoms. */
  lemma {:induction false} OrPiece(text: string, p: string)
    requires Splitter(text) == Some('|') && p in Pieces(text, '|') && ParseCondition(p).Ok?
    ensures WritableAtom(ParseCondition(p).value)
  {
    PiecesAreSimpler(text, p);
    NothingToSplit(p);
    WholeIsAtom(p);
  }

  lemma {:induction false} OrNormalIff(text: string)
    requires Splitter(text) == Some('|') && ParseCondition(text).Ok?
    ensures var c := ParseCondition(text).value;
            c.Or? && (WritableClause(c) <==> |Pieces(text, '|')| >= 2)
  {
    ConnectiveHoldsItsPieces(text);
    var c, pieces := ParseCondition(text).value, Pieces(text, '|');
    hide ParseCondition, Pieces, WritableAtom, Splitter, IsAtom;
    forall k | 0 <= k < |pieces|
      ensures WritableAtom(c.parts[k])
    {
      assert ParseCondition(pieces[k]) == Ok(c.parts[k]);
      OrPiece(text, pieces[k]);
    }
    ClauseOfAtoms(c);
  }

  lemma {:induction false} ClauseOfAtoms(c: Cond)
    requires c.Or? && forall k :: 0 <= k < |c.parts| ==> WritableAtom(c.parts[k])
    ensures WritableClause(c) <==> |c.parts| >= 2
  {
  }

  lemma {:induction false} ClauseNormalIff(text: string)
    requires Splitter(text) != Some('&') && ParseCondition(text).Ok?
    ensures WritableClause(ParseCondition(text).value) <==> TidyClause(text)
    ensures !ParseCondition(text).value.And?
  {
    hide ParseCondition, Pieces, IsAtom;
    if Splitter(text).None? {
      WholeIsAtom(text);
      assert IsAtom(ParseCondition(text).value);
      AtomIsNoConnective(ParseCondition(text).value);
    } else {
      assert Splitter(text) == Some('|');
      OrNormalIff(text);
    }
  }

  lemma {:induction false} AtomIsNoConnective(c: Cond)
    requires WritableAtom(c)
    ensures WritableClause(c) && !c.And? && !c.Or?
  {
  }

  lemma {:induction false} NothingToSplit(text: string)
    ensures '&' !in text ==> Splitter(text) != Some('&')
    ensures '&' !in text && '|' !in text ==> Splitter(text).None?
  {
    StripKeeps(text);
    hide Strip;
  }

  lemma {:induction false} AndNormalIff(text: string)
    requires Splitter(text) == Some('&') && ParseCondition(text).Ok?
    ensures Writable(ParseCondition(text).value) <==> Tidy(text)
  {
    ConnectiveHoldsItsPieces(text);
    var c, pieces := ParseCondition(text).value, Pieces(text, '&');
    assert Tidy(text) <==> |pieces| >= 2 && forall p :: p in pieces ==> TidyClause(p);
    hide ParseCondition, Pieces, Splitter, TidyClause, Tidy, WritableClause;
    forall k | 0 <= k < |pieces|
      ensures WritableClause(c.parts[k]) <==> TidyClause(pieces[k])
    {
      assert ParseCondition(pieces[k]) == Ok(c.parts[k]);
      AndPiece(text, pieces[k]);
    }
    AndOfClauses(c, pieces);
  }

  /** The pieces of an `and` hold no further one. */
  lemma {:induction false} AndPiece(text: string, p: string)
    requires Splitter(text) == Some('&') && p in Pieces(text, '&') && ParseCondition(p).Ok?
    ensures WritableClause(ParseCondition(p).value) <==> TidyClause(p)
  {
    PiecesAreSimpler(text, p);
    NothingToSplit(p);
    ClauseNormalIff(p);
  }

  lemma {:induction false} AndOfClauses(c: Cond, pieces: seq<string>)
    requires c.And? && |c.parts| == |pieces|
    requires forall k :: 0 <= k < |pieces| ==> (WritableClause(c.parts[k]) <==> TidyClause(pieces[k]))
    ensures Writable(c) <==> |pieces| >= 2 && forall p :: p in pieces ==> TidyClause(p)
  {
    assert !WritableClause(c);
    hide TidyClause, WritableClause;
    if Writable(c) {
      forall p | p in pieces
        ensures TidyClause(p)
      {
        var k :| 0 <= k < |pieces| && pieces[k] == p;
        assert c.parts[k] in c.parts;
      }
    }
  }

  /** An accepted text gives a normal form, one that print and parse carry back to itself,
      exactly when every connective in it has at least two non-blank pieces. */
  lemma {:induction false} NormalFormIff(text: string)
    requires ParseCondition(text).Ok?
    ensures Writable(ParseCondition(text).value) <==> Tidy(text)
    ensures Tidy(text) ==> ParseCondition(Print(ParseCondition(text).value)) == ParseCondition(text)
  {
    if Splitter(text) == Some('&') {
      AndNormalIff(text);
    } else {
      ClauseNormalIff(text);
      hide ParseCondition, Pieces, Splitter, WritableClause;
    }
    hide *;
    if Writable(ParseCondition(text).value) {
      ConditionRoundTrip(ParseCondition(text).value);
    }
  }

  // ----- negated names -----

  /** A text that starts with `!` and has no connective is always accepted: what follows is
      the name as it stands, so the condition names a proper variable exactly when it is one. */
  lemma {:induction false} NegationTakesAnything(text: string)
    requires Splitter(text).None? && Strip(text) != "" && Strip(text)[0] == '!'
    ensures ParseCondition(text) == Ok(Held(Strip(text)[1..], false))
  {
    ParseWhole(text);
    NoComparison(Strip(text));
    hide Strip, ReadComparison, ParseCondition;
  }

  // ----- the operators as they are spelled -----

  /** The names the shorthands know: a small letter, then small letters, digits and underscores. */
  lemma {:induction false} NamesAreSpelled(s: string)
    ensures ValidName(s)
       <==> s != "" && s[0] in "abcdefghijklmnopqrstuvwxyz" && forall c :: c in s ==> c in "abcdefghijklmnopqrstuvwxyz0123456789_"
  {
    forall c: char
      ensures IsLetter(c) <==> c in "abcdefghijklmnopqrstuvwxyz"
      ensures IsNameChar(c) <==> c in "abcdefghijklmnopqrstuvwxyz0123456789_"
    {
      LettersAre(c);
      NameCharsAre(c);
    }
    hide IsLetter, IsNameChar;
    forall i | 0 <= i < |s|
      ensures s[i] in s
    {
    }
  }

  lemma LettersAre(c: char)
    ensures IsLetter(c) <==> c in "abcdefghijklmnopqrstuvwxyz"
  {
    var letters := "abcdefghijklmnopqrstuvwxyz";
    assert forall i :: 0 <= i < |letters| ==> letters[i] as int == 'a' as int + i;
    if IsLetter(c) {
      assert letters[c as int - 'a' as int] == c;
    }
  }

  lemma NameCharsAre(c: char)
    ensures IsNameChar(c) <==> c in "abcdefghijklmnopqrstuvwxyz0123456789_"
  {
    var digits := "0123456789";
    assert forall i :: 0 <= i < |digits| ==> digits[i] as int == '0' as int + i;
    if IsDigit(c) {
      assert digits[c as int - '0' as int] == c;
    }
    assert "abcdefghijklmnopqrstuvwxyz0123456789_" == "abcdefghijklmnopqrstuvwxyz" + digits + "_";
    LettersAre(c);
    hide IsLetter;
  }

  /** A printed integer carries a minus exactly when it is negative, and then its size. */
  lemma SignedIsSpelled(n: int)
    ensures n < 0 ==> Signed(n) == "-" + Decimal(-n)
    ensures n >= 0 ==> Signed(n) == Decimal(n) && Signed(n)[0] != '-'
  {
    assert n >= 0 ==> IsDigit(Decimal(n)[0]);
  }

  /** What each comparison means, sign by sign. */
  lemma {:induction false} ComparisonsAreSpelled(name: string, value: int)
    requires ValidName(name)
    ensures ParseCondition(name + "==" + Signed(value)) == Ok(Compare(Eq, name, value))
    ensures ParseCondition(name + "!=" + Signed(value)) == Ok(Compare(Ne, name, value))
    ensures ParseCondition(name + ">=" + Signed(value)) == Ok(Compare(Ge, name, value))
    ensures ParseCondition(name + "<=" + Signed(value)) == Ok(Compare(Le, name, value))
    ensures ParseCondition(name + ">" + Signed(value)) == Ok(Compare(Gt, name, value))
    ensures ParseCondition(name + "<" + Signed(value)) == Ok(Compare(Lt, name, value))
    ensures ParseCondition(name) == Ok(Held(name, true)) && ParseCondition("!" + name) == Ok(Held(name, false))
  {
    hide ValidName, Signed, ParseCondition, IsSpace;
    forall op: Op
      ensures ParseCondition(name + op.Symbol() + Signed(value)) == Ok(Compare(op, name, value))
    {
      AtomParses(Compare(op, name, value));
    }
    assert Eq.Symbol() == "==" && Ne.Symbol() == "!=" && Ge.Symbol() == ">=" && Le.Symbol() == "<=";
    assert Gt.Symbol() == ">" && Lt.Symbol() == "<";
    AtomParses(Held(name, true));
    NameIsNegatable(name);
    AtomParses(Held(name, false));
  }

  lemma {:induction false} NameIsNegatable(name: string)
    requires ValidName(name)
    ensures WritableAtom(Held(name, false))
  {
    ValidNameIsPlain(name);
  }

  /** An `and` splits before an `or`: `a|b&c` asks for the third and one of the first two. */
  lemma {:induction false} AndSplitsFirst(a: Cond, b: Cond, c: Cond)
    requires WritableAtom(a) && WritableAtom(b) && WritableAtom(c)
    ensures ParseCondition(PrintAtom(a) + "|" + PrintAtom(b) + "&" + PrintAtom(c)) == Ok(And([Or([a, b]), c]))
    ensures ParseCondition(PrintAtom(a) + "&" + PrintAtom(b) + "|" + PrintAtom(c)) == Ok(And([a, Or([b, c])]))
  {
    assert IsAtom(a) && IsAtom(b) && IsAtom(c);
    hide WritableAtom, IsAtom, PrintAtom, ParseCondition;
    var x, y, z := PrintAtom(a), PrintAtom(b), PrintAtom(c);
    PrintedPair(a, b);
    PrintedPair(b, c);
    PrintedClauses(Or([a, b]), c);
    PrintedClauses(a, Or([b, c]));
    assert (x + "|" + y) + "&" + z == x + "|" + y + "&" + z;
    assert x + "&" + (y + "|" + z) == x + "&" + y + "|" + z;
    ConditionRoundTrip(And([Or([a, b]), c]));
    ConditionRoundTrip(And([a, Or([b, c])]));
  }

  lemma {:induction false} PrintedPair(a: Cond, b: Cond)
    requires WritableAtom(a) && WritableAtom(b)
    ensures WritableClause(Or([a, b])) && PrintClause(Or([a, b])) == PrintAtom(a) + "|" + PrintAtom(b)
  {
    assert IsAtom(a) && IsAtom(b);
    hide IsAtom, ValidName, PrintAtom;
    JoinsTwo(PrintAtom(a), PrintAtom(b), '|');
    assert PrintAtoms([a, b]) == [PrintAtom(a), PrintAtom(b)];
  }

  lemma {:induction false} PrintedClauses(a: Cond, b: Cond)
    requires WritableClause(a) && WritableClause(b)
    ensures Writable(And([a, b])) && Print(And([a, b])) == PrintClause(a) + "&" + PrintClause(b)
  {
    hide WritableClause, PrintClause;
    JoinsTwo(PrintClause(a), PrintClause(b), '&');
    assert PrintClauses([a, b]) == [PrintClause(a), PrintClause(b)];
  }

  lemma {:induction false} JoinsTwo(x: string, y: string, sep: char)
    ensures Join([x, y], sep) == x + [sep] + y
  {
    assert [x, y][1..] == [y] && Join([y], sep) == y;
  }

  lemma {:induction false} ReadsOnce(name: string, op: EffectOp, value: Operand)
    requires ValidName(name) && (value.Truth? ==> op.Set?)
    ensures ReadEffect(name + [op.Symbol()] + PrintValue(value)) == Ok(Effect(name, op, value, false))
    ensures ReadEffect(name + [op.Symbol()] + PrintValue(value) + "!") == Ok(Effect(name, op, value, true))
  {
    hide ReadEffect, ValidName, PrintValue;
    var item := name + [op.Symbol()] + PrintValue(value);
    EffectReads(Effect(name, op, value, false));
    EffectReads(Effect(name, op, value, true));
    assert item + "" == item;
  }

  /** What each effect means: `=` sets, `+` adds, `-` takes away, and a mark at the end means once. */
  lemma {:induction false} EffectsAreSpelled(name: string, n: nat)
    requires ValidName(name)
    ensures ReadEffect(name + "=" + Decimal(n)) == Ok(Effect(name, Set, Number(n), false))
    ensures ReadEffect(name + "+" + Decimal(n)) == Ok(Effect(name, Inc, Number(n), false))
    ensures ReadEffect(name + "-" + Decimal(n)) == Ok(Effect(name, Dec, Number(n), false))
    ensures ReadEffect(name + "=true") == Ok(Effect(name, Set, Truth(true), false))
    ensures ReadEffect(name + "=false") == Ok(Effect(name, Set, Truth(false), false))
    ensures ReadEffect(name + "+" + Decimal(n) + "!") == Ok(Effect(name, Inc, Number(n), true))
  {
    hide ReadEffect, ValidName, Decimal;
    ReadsOnce(name, Set, Number(n));
    ReadsOnce(name, Inc, Number(n));
    ReadsOnce(name, Dec, Number(n));
    ReadsOnce(name, Set, Truth(true));
    ReadsOnce(name, Set, Truth(false));
    assert name + "=true" == name + "=" + "true" && name + "=false" == name + "=" + "false";
    assert [Set.Symbol()] == "=" && [Inc.Symbol()] == "+" && [Dec.Symbol()] == "-";
  }
}
