/** The condition and effect shorthands of `scripts/build_series_book.py`. */
module Shorthand {

  import opened Collections
  import opened Text
  import opened Digits

  datatype Result<T> = Ok(value: T) | Bad(text: string)

  // ----- splitting -----

  function Split(s: string, sep: char): (parts: seq<string>)
    ensures |parts| >= 1
    ensures forall p, c :: p in parts && c in p ==> c in s && c != sep
  {
    if s == "" then [""]
    else
      var rest := Split(s[1..], sep);
      if s[0] == sep then [""] + rest else [[s[0]] + rest[0]] + rest[1..]
  }

  function Join(parts: seq<string>, sep: char): string {
    if |parts| == 0 then ""
    else if |parts| == 1 then parts[0]
    else parts[0] + [sep] + Join(parts[1..], sep)
  }

  lemma {:induction false} SplitWhole(s: string, sep: char)
    requires sep !in s
    ensures Split(s, sep) == [s]
  {
    if s != "" {
      SplitWhole(s[1..], sep);
      assert [s[0]] + s[1..] == s;
    }
  }

  lemma {:induction false} SplitFirst(s: string, sep: char, rest: string)
    requires sep !in s
    ensures Split(s + [sep] + rest, sep) == [s] + Split(rest, sep)
  {
    var all := s + [sep] + rest;
    if s == "" {
      assert all[1..] == rest;
    } else {
      SplitFirst(s[1..], sep, rest);
      assert all[1..] == s[1..] + [sep] + rest;
      assert [s[0]] + s[1..] == s;
    }
  }

  lemma {:induction false} SplitJoin(parts: seq<string>, sep: char)
    requires |parts| >= 1 && forall p :: p in parts ==> sep !in p
    ensures Split(Join(parts, sep), sep) == parts
  {
    if |parts| == 1 {
      SplitWhole(parts[0], sep);
    } else {
      SplitFirst(parts[0], sep, Join(parts[1..], sep));
      SplitJoin(parts[1..], sep);
    }
  }

  function NonBlank(parts: seq<string>): (kept: seq<string>)
    ensures forall p :: p in kept ==> p in parts
    ensures (forall p :: p in parts ==> Strip(p) != "") ==> kept == parts
  {
    if parts == [] then []
    else if Strip(parts[0]) != "" then [parts[0]] + NonBlank(parts[1..])
    else NonBlank(parts[1..])
  }

  lemma {:induction false} StripKeeps(s: string)
    ensures forall c :: c in Strip(s) ==> c in s
  {
  }

  // ----- names and numbers -----

  predicate IsLetter(c: char) {
    'a' <= c <= 'z'
  }

  predicate IsNameChar(c: char) {
    IsLetter(c) || IsDigit(c) || c == '_'
  }

  predicate ValidName(s: string) {
    s != "" && IsLetter(s[0]) && forall i :: 0 <= i < |s| ==> IsNameChar(s[i])
  }

  /** How many characters a name match takes from the front. */
  function NameRun(s: string): (n: nat)
    ensures n <= |s| && forall i :: 0 <= i < n ==> IsNameChar(s[i])
    ensures n == |s| || !IsNameChar(s[n])
  {
    if s == "" || !IsNameChar(s[0]) then 0
    else
      assert forall i :: 0 < i < |s| ==> s[i] == s[1..][i - 1];
      1 + NameRun(s[1..])
  }

  function NameLength(s: string): (n: nat)
    ensures n <= |s| && (n > 0 ==> ValidName(s[..n]))
  {
    if s != "" && IsLetter(s[0]) then NameRun(s) else 0
  }

  lemma {:induction false} NameThen(name: string, rest: string)
    requires ValidName(name) && (rest == "" || !IsNameChar(rest[0]))
    ensures NameLength(name + rest) == |name|
  {
    var s := name + rest;
    assert forall i :: 0 <= i < |name| ==> s[i] == name[i];
    assert rest != "" ==> s[|name|] == rest[0];
  }

  function Signed(n: int): string {
    if n < 0 then "-" + Decimal(-n) else Decimal(n)
  }

  /** An optional minus and at least one digit, to the end. */
  function ReadSigned(s: string): Result<int> {
    var digits := if s != "" && s[0] == '-' then s[1..] else s;
    if digits == "" || !AllDigits(digits) then Bad(s)
    else Ok(if s[0] == '-' then -(Value(digits) as int) else Value(digits))
  }

  lemma {:induction false} ReadsDigits(digits: string)
    requires digits != "" && AllDigits(digits)
    ensures ReadSigned(digits) == Ok(Value(digits))
    ensures ReadSigned("-" + digits) == Ok(-(Value(digits) as int))
  {
    hide Value;
    assert IsDigit(digits[0]) && ("-" + digits)[1..] == digits;
  }

  lemma ReadSignedInverts(n: int)
    ensures ReadSigned(Signed(n)) == Ok(n)
  {
    hide Value, Decimal, ReadSigned;
    var size: nat := if n < 0 then -n else n;
    ValueOfDecimal(size);
    ReadsDigits(Decimal(size));
  }

  // ----- conditions -----

  datatype Op = Eq | Ne | Ge | Le | Gt | Lt {
    function Symbol(): (s: string)
      ensures 1 <= |s| <= 2
    {
      match this
      case Eq => "=="
      case Ne => "!="
      case Ge => ">="
      case Le => "<="
      case Gt => ">"
      case Lt => "<"
    }
  }

  datatype Cond =
    | Held(name: string, held: bool)
    | Compare(op: Op, name: string, value: int)
    | And(parts: seq<Cond>)
    | Or(parts: seq<Cond>)

  /** The operator at the front, the two-character ones tried first. */
  function OpAt(s: string): Option<Op> {
    if |s| >= 2 && s[..2] == "==" then Some(Eq)
    else if |s| >= 2 && s[..2] == "!=" then Some(Ne)
    else if |s| >= 2 && s[..2] == ">=" then Some(Ge)
    else if |s| >= 2 && s[..2] == "<=" then Some(Le)
    else if |s| >= 1 && s[0] == '>' then Some(Gt)
    else if |s| >= 1 && s[0] == '<' then Some(Lt)
    else None
  }

  lemma {:induction false} OpAtFits(s: string)
    ensures OpAt(s).Some? ==> |OpAt(s).value.Symbol()| <= |s|
  {
  }

  /** `name op integer`, with space allowed around the operator. */
  function ReadComparison(s: string): Option<Cond> {
    var n := NameLength(s);
    if n == 0 then None
    else
      var rest := StripLeft(s[n..]);
      var op := OpAt(rest);
      if op.None? then None
      else
        OpAtFits(rest);
        match ReadSigned(StripLeft(rest[|op.value.Symbol()|..]))
        case Ok(value) => Some(Compare(op.value, s[..n], value))
        case Bad(_) => None
  }

  /** A stripped text without connectives: a comparison, a negated name taken as it stands,
      or a name. */
  function ReadAtom(s: string, text: string): Result<Cond> {
    var comparison := ReadComparison(s);
    if comparison.Some? then Ok(comparison.value)
    else if s != "" && s[0] == '!' then Ok(Held(s[1..], false))
    else if ValidName(s) then Ok(Held(s, true))
    else Bad(text)
  }

  /** How many of the two connectives occur: each split uses one up. */
  function Level(s: string): nat {
    (if '&' in s then 1 else 0) + if '|' in s then 1 else 0
  }

  function ParseCondition(text: string): Result<Cond>
    decreases Level(text), 1, 0
  {
    var s := Strip(text);
    StripKeeps(text);
    if '&' in s then
      match ParseAll(NonBlank(Split(s, '&')), Level(text))
      case Ok(parts) => Ok(And(parts))
      case Bad(part) => Bad(part)
    else if '|' in s then
      match ParseAll(NonBlank(Split(s, '|')), Level(text))
      case Ok(parts) => Ok(Or(parts))
      case Bad(part) => Bad(part)
    else ReadAtom(s, text)
  }

  function ParseAll(parts: seq<string>, level: nat): Result<seq<Cond>>
    requires forall p :: p in parts ==> Level(p) < level
    decreases level, 0, |parts|
  {
    if parts == [] then Ok([])
    else
      match ParseCondition(parts[0])
      case Bad(part) => Bad(part)
      case Ok(first) =>
        match ParseAll(parts[1..], level)
        case Bad(part) => Bad(part)
        case Ok(rest) => Ok([first] + rest)
  }

  // ----- what a condition can look like -----

  predicate IsAtom(c: Cond) {
    c.Held? || c.Compare?
  }

  predicate AllAtoms(conds: seq<Cond>) {
    forall c :: c in conds ==> IsAtom(c)
  }

  predicate IsClause(c: Cond) {
    IsAtom(c) || (c.Or? && AllAtoms(c.parts))
  }

  predicate AllClauses(conds: seq<Cond>) {
    forall c :: c in conds ==> IsClause(c)
  }

  /** An `and` at most at the top, an `or` at most below it. */
  predicate IsFlat(c: Cond) {
    IsClause(c) || (c.And? && AllClauses(c.parts))
  }

  predicate Lack(parts: seq<string>, sep: char) {
    forall p :: p in parts ==> sep !in p
  }

  lemma {:induction false} ParseAllStep(parts: seq<string>, level: nat)
    requires parts != [] && (forall p :: p in parts ==> Level(p) < level) && ParseAll(parts, level).Ok?
    ensures ParseCondition(parts[0]).Ok? && ParseAll(parts[1..], level).Ok?
    ensures ParseAll(parts, level).value == [ParseCondition(parts[0]).value] + ParseAll(parts[1..], level).value
  {
    hide ParseCondition, Level;
  }

  lemma {:induction false} AllParse(parts: seq<string>, level: nat)
    requires (forall p :: p in parts ==> Level(p) < level) && ParseAll(parts, level).Ok?
    ensures Lack(parts, '&') ==> AllClauses(ParseAll(parts, level).value)
    ensures Lack(parts, '&') && Lack(parts, '|') ==> AllAtoms(ParseAll(parts, level).value)
    decreases level, 0, |parts|
  {
    hide ParseCondition, IsClause, IsFlat;
    if parts != [] {
      hide ParseAll;
      assert Level(parts[0]) < level && parts[0] in parts;
      ParseAllStep(parts, level);
      ParsedIsFlat(parts[0]);
      AllParse(parts[1..], level);
    }
  }

  /** The parser never puts an `and` inside an `or`, nor either inside itself. */
  lemma {:induction false} ParsedIsFlat(text: string)
    requires ParseCondition(text).Ok?
    ensures IsFlat(ParseCondition(text).value)
    ensures '&' !in text ==> IsClause(ParseCondition(text).value)
    ensures '&' !in text && '|' !in text ==> IsAtom(ParseCondition(text).value)
    decreases Level(text), 1, 0
  {
    hide Split, NonBlank, ReadComparison, Strip;
    var s := Strip(text);
    StripKeeps(text);
    if '&' in s {
      AllParse(NonBlank(Split(s, '&')), Level(text));
    } else if '|' in s {
      AllParse(NonBlank(Split(s, '|')), Level(text));
    } else {
      AtomsAreAtoms(s, text);
    }
  }

  lemma {:induction false} AtomsAreAtoms(s: string, text: string)
    requires ReadAtom(s, text).Ok?
    ensures IsAtom(ReadAtom(s, text).value)
  {
    hide ReadSigned, NameLength, StripLeft, OpAt;
  }

  // ----- printing and reading back -----

  function PrintAtom(c: Cond): string
    requires IsAtom(c)
  {
    match c
    case Held(name, held) => if held then name else "!" + name
    case Compare(op, name, value) => name + op.Symbol() + Signed(value)
  }

  /** The atoms the shorthand can write: a negated name may be anything that survives
      splitting and stripping, the others need a proper name. */
  predicate WritableAtom(c: Cond) {
    && IsAtom(c)
    && if c.Held? && !c.held then
         '&' !in c.name && '|' !in c.name && (c.name == "" || !IsSpace(c.name[|c.name| - 1]))
       else ValidName(c.name)
  }

  predicate WritableClause(c: Cond) {
    WritableAtom(c) || (c.Or? && |c.parts| >= 2 && forall p :: p in c.parts ==> WritableAtom(p))
  }

  /** The normal forms: an atom, an `or` of two or more, or an `and` of two or more of these. */
  predicate Writable(c: Cond) {
    WritableClause(c) || (c.And? && |c.parts| >= 2 && forall p :: p in c.parts ==> WritableClause(p))
  }

  function PrintAtoms(parts: seq<Cond>): (texts: seq<string>)
    requires forall p :: p in parts ==> IsAtom(p)
    ensures |texts| == |parts| && forall i :: 0 <= i < |parts| ==> texts[i] == PrintAtom(parts[i])
  {
    if parts == [] then [] else [PrintAtom(parts[0])] + PrintAtoms(parts[1..])
  }

  function PrintClause(c: Cond): string
    requires WritableClause(c)
  {
    if c.Or? then Join(PrintAtoms(c.parts), '|') else PrintAtom(c)
  }

  function PrintClauses(parts: seq<Cond>): (texts: seq<string>)
    requires forall p :: p in parts ==> WritableClause(p)
    ensures |texts| == |parts| && forall i :: 0 <= i < |parts| ==> texts[i] == PrintClause(parts[i])
  {
    if parts == [] then [] else [PrintClause(parts[0])] + PrintClauses(parts[1..])
  }

  function Print(c: Cond): string
    requires Writable(c)
  {
    if c.And? then Join(PrintClauses(c.parts), '&') else PrintClause(c)
  }

  /** A text that neither splitting nor stripping touches. */
  predicate Solid(s: string) {
    s != "" && !IsSpace(s[0]) && !IsSpace(s[|s| - 1])
  }

  lemma {:induction false} ValidNameIsPlain(name: string)
    requires ValidName(name)
    ensures Solid(name) && '&' !in name && '|' !in name
  {
    assert IsNameChar(name[|name| - 1]);
  }

  lemma SignedIsPlain(n: int)
    ensures Solid(Signed(n)) && '&' !in Signed(n) && '|' !in Signed(n)
    ensures Signed(n)[0] == '-' || IsDigit(Signed(n)[0])
  {
    var digits := Decimal(if n < 0 then -n else n);
    assert IsDigit(digits[|digits| - 1]) && IsDigit(digits[0]);
  }

  lemma {:induction false} OpReadsBack(op: Op, tail: string)
    requires tail != "" && tail[0] != '='
    ensures var rest := op.Symbol() + tail;
            && OpAt(rest) == Some(op) && rest[|op.Symbol()|..] == tail
            && !IsSpace(rest[0]) && !IsNameChar(rest[0]) && '&' !in op.Symbol() && '|' !in op.Symbol()
  {
    var rest := op.Symbol() + tail;
    assert |op.Symbol()| == 2 ==> rest[..2] == op.Symbol();
    assert |op.Symbol()| == 1 ==> rest[1] == tail[0];
  }

  lemma {:induction false} StripLeftSolid(s: string)
    requires s != "" && !IsSpace(s[0])
    ensures StripLeft(s) == s
  {
  }

  lemma {:induction false} ComparisonOf(s: string, n: nat, rest: string, op: Op, tail: string, value: int)
    requires n == NameLength(s) > 0 && s[n..] == rest && StripLeft(rest) == rest
    requires |op.Symbol()| <= |rest| && OpAt(rest) == Some(op) && rest[|op.Symbol()|..] == tail && StripLeft(tail) == tail
    requires ReadSigned(tail) == Ok(value)
    ensures ReadComparison(s) == Some(Compare(op, s[..n], value))
  {
    hide NameLength, ReadSigned, OpAt, StripLeft;
  }

  lemma {:induction false} EndsSolid(s: string, tail: string)
    requires s != "" && !IsSpace(s[0]) && Solid(tail)
    ensures Solid(s + tail)
  {
    assert (s + tail)[|s + tail| - 1] == tail[|tail| - 1];
  }

  lemma {:induction false} ReadsBackComparison(op: Op, name: string, value: int)
    requires ValidName(name)
    ensures ReadComparison(name + op.Symbol() + Signed(value)) == Some(Compare(op, name, value))
    ensures Solid(name + op.Symbol() + Signed(value))
  {
    var tail := Signed(value);
    var rest := op.Symbol() + tail;
    var s := name + rest;
    assert name + op.Symbol() + tail == s;
    SignedIsPlain(value);
    ReadSignedInverts(value);
    OpReadsBack(op, tail);
    NameThen(name, rest);
    ValidNameIsPlain(name);
    EndsSolid(name + op.Symbol(), tail);
    StripLeftSolid(rest);
    StripLeftSolid(tail);
    hide NameLength, Signed, ReadSigned, OpAt, StripLeft, ValidName, ReadComparison, IsSpace;
    assert s[..|name|] == name && s[|name|..] == rest;
    ComparisonOf(s, |name|, rest, op, tail, value);
  }

  lemma {:induction false} NoComparison(s: string)
    requires s == "" || !IsLetter(s[0]) || NameLength(s) == |s|
    ensures ReadComparison(s) == None
  {
    hide NameRun, ReadSigned;
    if s != "" && IsLetter(s[0]) {
      hide NameLength;
      assert StripLeft(s[|s|..]) == "";
      assert OpAt("") == None;
    }
  }

  lemma {:induction false} ReadsBackHeld(name: string, held: bool)
    requires WritableAtom(Held(name, held))
    ensures var s := if held then name else "!" + name;
            Solid(s) && '&' !in s && '|' !in s && forall text :: ReadAtom(s, text) == Ok(Held(name, held))
  {
    if held {
      ValidNameIsPlain(name);
      NameThen(name, "");
      assert name + "" == name;
      NoComparison(name);
    } else {
      var s := "!" + name;
      assert s[1..] == name;
      NoComparison(s);
    }
    hide ReadComparison;
  }

  lemma {:induction false} ReadsBackAtom(c: Cond)
    requires WritableAtom(c)
    ensures var s := PrintAtom(c);
            Solid(s) && '&' !in s && '|' !in s && forall text :: ReadAtom(s, text) == Ok(c)
  {
    match c
    case Compare(op, name, value) =>
      ReadsBackComparison(op, name, value);
      ValidNameIsPlain(name);
      SignedIsPlain(value);
      OpReadsBack(op, Signed(value));
      hide ReadComparison, Signed, ValidName;
    case Held(name, held) =>
      ReadsBackHeld(name, held);
      hide ReadAtom, ValidName;
  }

  lemma {:induction false} AtomParses(c: Cond)
    requires WritableAtom(c)
    ensures ParseCondition(PrintAtom(c)) == Ok(c) && Solid(PrintAtom(c))
    ensures '&' !in PrintAtom(c) && '|' !in PrintAtom(c)
  {
    ReadsBackAtom(c);
  }

  lemma {:induction false} SolidJoin(first: string, sep: char, rest: string)
    requires Solid(first) && Solid(rest)
    ensures Solid(first + [sep] + rest) && sep in first + [sep] + rest
  {
    var all := first + [sep] + rest;
    assert all[0] == first[0] && all[|all| - 1] == rest[|rest| - 1] && all[|first|] == sep;
  }

  lemma {:induction false} JoinIsSolid(parts: seq<string>, sep: char)
    requires |parts| >= 1 && forall p :: p in parts ==> Solid(p)
    ensures Solid(Join(parts, sep))
    ensures |parts| >= 2 ==> sep in Join(parts, sep)
  {
    hide Solid;
    assert parts[0] in parts;
    if |parts| >= 2 {
      JoinIsSolid(parts[1..], sep);
      SolidJoin(parts[0], sep, Join(parts[1..], sep));
    }
  }

  lemma {:induction false} JoinKeepsOut(parts: seq<string>, sep: char, c: char)
    requires c != sep && forall p :: p in parts ==> c !in p
    ensures c !in Join(parts, sep)
  {
    if |parts| >= 2 {
      JoinKeepsOut(parts[1..], sep, c);
    }
  }

  ghost predicate ParsesTo(texts: seq<string>, conds: seq<Cond>) {
    |texts| == |conds| && forall i :: 0 <= i < |texts| ==> ParseCondition(texts[i]) == Ok(conds[i])
  }

  lemma {:induction false} ParseAllOk(texts: seq<string>, conds: seq<Cond>, level: nat)
    requires forall t :: t in texts ==> Level(t) < level
    requires ParsesTo(texts, conds)
    ensures ParseAll(texts, level) == Ok(conds)
  {
    hide ParseCondition;
    if texts != [] {
      ParseAllOk(texts[1..], conds[1..], level);
      assert conds == [conds[0]] + conds[1..];
    }
  }

  lemma {:induction false} StripSolid(s: string)
    requires Solid(s)
    ensures Strip(s) == s
  {
  }

  lemma {:induction false} PartBelow(texts: seq<string>, sep: char, i: nat)
    requires i < |texts| && sep in Join(texts, sep) && (sep == '&' || sep == '|')
    requires sep !in texts[i] && (sep == '|' ==> '&' !in texts[i])
    ensures Level(texts[i]) < Level(Join(texts, sep))
  {
    if '|' in texts[i] {
      JoinHolds(texts, sep, i, '|');
    }
  }

  lemma {:induction false} SplitParses(all: string, sep: char, texts: seq<string>, conds: seq<Cond>)
    requires Strip(all) == all && sep in all && (sep == '&' || sep == '|') && (sep == '|' ==> '&' !in all)
    requires NonBlank(Split(all, sep)) == texts && forall t :: t in texts ==> Level(t) < Level(all)
    requires ParseAll(texts, Level(all)) == Ok(conds)
    ensures ParseCondition(all) == Ok(if sep == '&' then And(conds) else Or(conds))
  {
    hide ParseAll, NonBlank, Split, Strip, Level;
  }

  /** Parts that parse on their own and lack the separator parse together once joined. */
  lemma {:induction false} JoinedParses(texts: seq<string>, conds: seq<Cond>, sep: char)
    requires |texts| >= 2 && (sep == '&' || sep == '|') && ParsesTo(texts, conds)
    requires forall t :: t in texts ==> Solid(t) && sep !in t && (sep == '|' ==> '&' !in t)
    ensures ParseCondition(Join(texts, sep)) == Ok(if sep == '&' then And(conds) else Or(conds))
    ensures Solid(Join(texts, sep)) && (sep == '|' ==> '&' !in Join(texts, sep))
  {
    hide Strip, Split, Join, NonBlank, Solid, ParsesTo, ParseCondition, ParseAll, Level;
    var all := Join(texts, sep);
    JoinIsSolid(texts, sep);
    SplitJoin(texts, sep);
    StripSolid(all);
    forall t | t in texts
      ensures Strip(t) != "" && Level(t) < Level(all)
    {
      StripSolid(t);
      SolidNonEmpty(t);
      var i :| 0 <= i < |texts| && texts[i] == t;
      PartBelow(texts, sep, i);
    }
    if sep == '|' {
      JoinKeepsOut(texts, sep, '&');
    }
    ParseAllOk(texts, conds, Level(all));
    SplitParses(all, sep, texts, conds);
  }

  lemma {:induction false} SolidNonEmpty(s: string)
    requires Solid(s)
    ensures s != ""
  {
  }

  lemma {:induction false} JoinHolds(parts: seq<string>, sep: char, i: nat, c: char)
    requires i < |parts| && c in parts[i]
    ensures c in Join(parts, sep)
  {
    if i > 0 {
      JoinHolds(parts[1..], sep, i - 1, c);
    }
  }

  lemma {:induction false} ClauseParses(c: Cond)
    requires WritableClause(c)
    ensures ParseCondition(PrintClause(c)) == Ok(c) && Solid(PrintClause(c)) && '&' !in PrintClause(c)
  {
    if c.Or? {
      var texts := PrintAtoms(c.parts);
      forall i | 0 <= i < |texts|
        ensures ParseCondition(texts[i]) == Ok(c.parts[i]) && Solid(texts[i]) && '&' !in texts[i] && '|' !in texts[i]
      {
        AtomParses(c.parts[i]);
      }
      hide Solid, PrintAtoms, ParseCondition;
      JoinedParses(texts, c.parts, '|');
    } else {
      AtomParses(c);
    }
  }

  /** Parsing inverts printing on every normal form. */
  lemma {:induction false} ConditionRoundTrip(c: Cond)
    requires Writable(c)
    ensures ParseCondition(Print(c)) == Ok(c)
  {
    if c.And? {
      var texts := PrintClauses(c.parts);
      forall i | 0 <= i < |texts|
        ensures ParseCondition(texts[i]) == Ok(c.parts[i]) && Solid(texts[i]) && '&' !in texts[i]
      {
        ClauseParses(c.parts[i]);
      }
      hide Solid, PrintClauses, ParseCondition;
      JoinedParses(texts, c.parts, '&');
    } else {
      ClauseParses(c);
    }
  }

  lemma BlanksDropped()
    ensures NonBlank(["", ""]) == []
  {
    hide Strip;
    assert ["", ""][1..] == [""] && [""][1..] == [];
    assert NonBlank([""]) == [];
  }

  lemma {:induction false} LoneSplits(sep: char)
    requires sep == '&' || sep == '|'
    ensures Split([sep], sep) == ["", ""] && Strip([sep]) == [sep]
  {
    StripSolid([sep]);
    hide Strip;
    assert [sep][1..] == "" && Split("", sep) == [""];
    assert [""] + [""] == ["", ""];
  }

  /** A connective with nothing around it is not refused: it parses to an empty list. */
  lemma LoneConnective()
    ensures ParseCondition("&") == Ok(And([])) && ParseCondition("|") == Ok(Or([]))
  {
    hide Split, NonBlank, Strip;
    BlanksDropped();
    LoneSplits('&');
    LoneSplits('|');
    SplitParses("&", '&', [], []);
    SplitParses("|", '|', [], []);
  }

  // ----- effects -----

  datatype EffectOp = Set | Inc | Dec {
    function Symbol(): char {
      match this
      case Set => '='
      case Inc => '+'
      case Dec => '-'
    }
  }

  datatype Operand = Number(n: nat) | Truth(b: bool)

  datatype Effect = Effect(name: string, op: EffectOp, value: Operand, once: bool)

  predicate IsWord(s: string) {
    s != "" && forall i :: 0 <= i < |s| ==> IsNameChar(s[i]) || 'A' <= s[i] <= 'Z'
  }

  function Digitized(s: string): (d: string)
    ensures AllDigits(d)
    ensures AllDigits(s) ==> d == s
  {
    if s == "" then ""
    else if IsDigit(s[0]) then [s[0]] + Digitized(s[1..]) else Digitized(s[1..])
  }

  /** Python's integer literals: digits, with single underscores between them. */
  predicate IsNumeral(s: string) {
    && s != "" && IsDigit(s[0]) && IsDigit(s[|s| - 1])
    && (forall i :: 0 <= i < |s| ==> IsDigit(s[i]) || s[i] == '_')
    && forall i :: 0 < i < |s| ==> IsDigit(s[i - 1]) || IsDigit(s[i])
  }

  function ReadNumeral(literal: string, item: string): Result<Operand> {
    if IsNumeral(literal) then Ok(Number(Value(Digitized(literal)))) else Bad(item)
  }

  function ReadOperand(op: EffectOp, literal: string, item: string): Result<Operand> {
    if op.Set? && literal == "true" then Ok(Truth(true))
    else if op.Set? && literal == "false" then Ok(Truth(false))
    else ReadNumeral(literal, item)
  }

  function EffectOpAt(s: string): Option<EffectOp> {
    if s == "" then None
    else if s[0] == '=' then Some(Set)
    else if s[0] == '+' then Some(Inc)
    else if s[0] == '-' then Some(Dec)
    else None
  }

  /** The end-of-text match also accepts one trailing newline. */
  function DropNewline(s: string): string {
    if s != "" && s[|s| - 1] == '\n' then s[..|s| - 1] else s
  }

  /** One stripped, non-empty item. */
  function ReadEffect(item: string): Result<Effect>
    requires item != ""
  {
    var once := item[|item| - 1] == '!';
    var body := if once then item[..|item| - 1] else item;
    var n := NameLength(body);
    var op := EffectOpAt(body[n..]);
    if n == 0 || op.None? then Bad(item)
    else
      var literal := DropNewline(body[n + 1..]);
      if !IsWord(literal) then Bad(item)
      else
        match ReadOperand(op.value, literal, item)
        case Ok(value) => Ok(Effect(body[..n], op.value, value, once))
        case Bad(text) => Bad(text)
  }

  /** The items' effects in order; the first bad item stops the list, blank ones are skipped. */
  function ReadEffects(items: seq<string>): Result<seq<Effect>> {
    if items == [] then Ok([])
    else
      match ReadEffects(items[..|items| - 1])
      case Bad(text) => Bad(text)
      case Ok(before) =>
        var item := Strip(items[|items| - 1]);
        if item == "" then Ok(before)
        else
          match ReadEffect(item)
          case Ok(effect) => Ok(before + [effect])
          case Bad(text) => Bad(text)
  }

  lemma {:induction false} BadStops(items: seq<string>, k: nat)
    requires k <= |items| && ReadEffects(items[..k]).Bad?
    ensures ReadEffects(items) == ReadEffects(items[..k])
  {
    hide ReadEffect, Strip;
    if k == |items| {
      assert items[..k] == items;
    } else {
      assert items[..|items| - 1][..k] == items[..k];
      BadStops(items[..|items| - 1], k);
    }
  }

  method ParseEffects(text: string) returns (r: Result<seq<Effect>>)
    ensures r == ReadEffects(Split(text, ','))
  {
    hide ReadEffect, Split, Strip;
    var items := Split(text, ',');
    var effects := [];
    for k := 0 to |items|
      invariant ReadEffects(items[..k]) == Ok(effects)
    {
      assert items[..k + 1][..k] == items[..k];
      var item := Strip(items[k]);
      if item == "" {
        continue;
      }
      var effect := ReadEffect(item);
      if effect.Bad? {
        BadStops(items, k + 1);
        return Bad(effect.text);
      }
      effects := effects + [effect.value];
    }
    assert items[..|items|] == items;
    r := Ok(effects);
  }

  // ----- printing effects and reading back -----

  /** An effect the shorthand can write: only `set` takes a truth value. */
  predicate WritableEffect(e: Effect) {
    ValidName(e.name) && (e.value.Truth? ==> e.op.Set?)
  }

  function PrintValue(v: Operand): string {
    match v
    case Number(n) => Decimal(n)
    case Truth(b) => if b then "true" else "false"
  }

  function PrintEffect(e: Effect): string {
    e.name + [e.op.Symbol()] + PrintValue(e.value) + if e.once then "!" else ""
  }

  function PrintEffects(effects: seq<Effect>): (texts: seq<string>)
    ensures |texts| == |effects| && forall i :: 0 <= i < |effects| ==> texts[i] == PrintEffect(effects[i])
  {
    if effects == [] then [] else PrintEffects(effects[..|effects| - 1]) + [PrintEffect(effects[|effects| - 1])]
  }

  lemma {:induction false} DecimalReads(n: nat, item: string)
    ensures IsWord(Decimal(n)) && ReadNumeral(Decimal(n), item) == Ok(Number(n)) && Decimal(n)[0] != 't' && Decimal(n)[0] != 'f'
  {
    var d := Decimal(n);
    ValueOfDecimal(n);
    assert IsDigit(d[0]) && IsDigit(d[|d| - 1]);
  }

  lemma {:induction false} ValueReads(op: EffectOp, v: Operand, item: string)
    requires v.Truth? ==> op.Set?
    ensures IsWord(PrintValue(v)) && ReadOperand(op, PrintValue(v), item) == Ok(v)
  {
    if v.Number? {
      DecimalReads(v.n, item);
    }
  }

  lemma {:induction false} WordEnds(s: string)
    requires IsWord(s)
    ensures s[|s| - 1] != '!' && s[|s| - 1] != '\n' && !IsSpace(s[|s| - 1]) && DropNewline(s) == s && ',' !in s
  {
  }

  lemma {:induction false} EffectOf(item: string, body: string, once: bool, n: nat, op: EffectOp, literal: string, value: Operand)
    requires item != "" && once == (item[|item| - 1] == '!') && body == (if once then item[..|item| - 1] else item)
    requires n == NameLength(body) && 0 < n < |body| && body[n] == op.Symbol() && DropNewline(body[n + 1..]) == literal
    requires IsWord(literal) && ReadOperand(op, literal, item) == Ok(value)
    ensures ReadEffect(item) == Ok(Effect(body[..n], op, value, once))
  {
    hide NameLength, DropNewline, IsWord, ReadOperand;
    assert body[n..][0] == body[n];
  }

  lemma {:induction false} OpIsPlain(op: EffectOp)
    ensures !IsNameChar(op.Symbol()) && op.Symbol() != ',' && op.Symbol() != '!'
  {
  }

  lemma {:induction false} OnceStrips(body: string, item: string, once: bool)
    requires body != "" && body[|body| - 1] != '!' && !IsSpace(body[|body| - 1]) && !IsSpace(body[0])
    requires item == if once then body + "!" else body
    ensures Solid(item) && once == (item[|item| - 1] == '!') && body == if once then item[..|item| - 1] else item
    ensures ',' !in body ==> ',' !in item
  {
  }

  lemma {:induction false} BodyParts(name: string, op: char, literal: string)
    requires literal != "" && name != ""
    ensures var body := name + [op] + literal;
            && body[..|name|] == name && body[|name|] == op && body[|name| + 1..] == literal
            && body[0] == name[0] && body[|body| - 1] == literal[|literal| - 1] && body == name + ([op] + literal)
  {
  }

  function PrintBody(e: Effect): string {
    e.name + [e.op.Symbol()] + PrintValue(e.value)
  }

  lemma {:induction false} BodyHasNoComma(e: Effect)
    requires WritableEffect(e)
    ensures ',' !in PrintBody(e)
  {
    ValueReads(e.op, e.value, "");
    WordEnds(PrintValue(e.value));
    OpIsPlain(e.op);
    NoComma(e.name);
    hide PrintValue, ValidName, IsWord, ReadOperand;
  }

  lemma {:induction false} BodyReads(e: Effect, item: string)
    requires WritableEffect(e)
    ensures var body, literal, n := PrintBody(e), PrintValue(e.value), |e.name|;
            && 0 < n < |body| && NameLength(body) == n && body[..n] == e.name && body[n] == e.op.Symbol()
            && DropNewline(body[n + 1..]) == literal && IsWord(literal) && ReadOperand(e.op, literal, item) == Ok(e.value)
            && body[|body| - 1] != '!' && !IsSpace(body[|body| - 1]) && !IsSpace(body[0])
  {
    var literal, op := PrintValue(e.value), e.op.Symbol();
    ValueReads(e.op, e.value, item);
    WordEnds(literal);
    OpIsPlain(e.op);
    BodyParts(e.name, op, literal);
    NameThen(e.name, [op] + literal);
    ValidNameIsPlain(e.name);
    hide NameLength, PrintValue, ReadOperand, IsWord, DropNewline, ValidName, IsSpace, IsNameChar;
  }

  /** A printed effect reads back, and neither splitting nor stripping touches it. */
  lemma {:induction false} EffectReads(e: Effect)
    requires WritableEffect(e)
    ensures Solid(PrintEffect(e)) && ',' !in PrintEffect(e)
    ensures ReadEffect(PrintEffect(e)) == Ok(e)
  {
    var body := PrintBody(e);
    var item := if e.once then body + "!" else body;
    assert PrintEffect(e) == item;
    hide NameLength, PrintValue, ReadOperand, IsWord, PrintEffect, PrintBody, DropNewline, ValidName, ReadEffect,
        IsSpace, IsNameChar;
    BodyReads(e, item);
    BodyHasNoComma(e);
    OnceStrips(body, item, e.once);
    EffectOf(item, body, e.once, |e.name|, e.op, PrintValue(e.value), e.value);
  }

  lemma {:induction false} NoComma(name: string)
    requires ValidName(name)
    ensures ',' !in name
  {
  }

  lemma {:induction false} ReadEffectsStep(items: seq<string>, item: string, before: seq<Effect>, e: Effect)
    requires ReadEffects(items) == Ok(before) && item != "" && Strip(item) == item && ReadEffect(item) == Ok(e)
    ensures ReadEffects(items + [item]) == Ok(before + [e])
  {
    hide ReadEffect, Strip;
    assert (items + [item])[..|items|] == items;
  }

  lemma NothingPrinted()
    ensures PrintEffects([]) == [] && ReadEffects([]) == Ok([])
  {
  }

  lemma {:induction false} PrintedLast(effects: seq<Effect>)
    requires effects != []
    ensures PrintEffects(effects) == PrintEffects(effects[..|effects| - 1]) + [PrintEffect(effects[|effects| - 1])]
  {
    hide PrintEffect;
  }

  lemma {:induction false} EffectsRead(effects: seq<Effect>)
    requires forall e :: e in effects ==> WritableEffect(e)
    ensures ReadEffects(PrintEffects(effects)) == Ok(effects)
  {
    hide ReadEffect, PrintEffect, PrintEffects, WritableEffect, Strip, ReadEffects, Solid;
    if effects == [] {
      NothingPrinted();
    } else {
      var front, last := effects[..|effects| - 1], effects[|effects| - 1];
      EffectsRead(front);
      EffectReads(last);
      StripSolid(PrintEffect(last));
      SolidNonEmpty(PrintEffect(last));
      PrintedLast(effects);
      ReadEffectsStep(PrintEffects(front), PrintEffect(last), front, last);
      assert effects == front + [last];
    }
  }

  /** Parsing inverts printing on every list of effects, the empty list included. */
  lemma {:induction false} EffectsRoundTrip(effects: seq<Effect>)
    requires forall e :: e in effects ==> WritableEffect(e)
    ensures ReadEffects(Split(Join(PrintEffects(effects), ','), ',')) == Ok(effects)
  {
    hide ReadEffect, PrintEffect, WritableEffect;
    var texts := PrintEffects(effects);
    if effects == [] {
      assert Strip("") == "" && [""][..0] == [];
    } else {
      forall t | t in texts
        ensures ',' !in t
      {
        var i :| 0 <= i < |texts| && texts[i] == t;
        EffectReads(effects[i]);
      }
      SplitJoin(texts, ',');
      EffectsRead(effects);
    }
  }
}
