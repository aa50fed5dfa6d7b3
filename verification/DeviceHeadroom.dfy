/** Series headroom from `scripts/check_device_vocabulary.py`: a counting loop over a
    contract's invention specs, and the book at which a device axis must repeat. */
module DeviceHeadroom {
  import opened Collections
  import opened StringOrder
  import opened Text

  /** A spec's `pick`: absent, an integer, or something else. */
  datatype Pick = Absent | Count(n: int) | Malformed

  /** One invention spec; fields that are not strings read as `None`. */
  datatype Spec = Spec(category: Option<string>, source: Option<string>, pick: Pick, must: Option<string>)

  /** One entry of `world_recipe.requires`; `count` is `None` when absent or not an integer. */
  datatype Axis = Axis(kinds: Option<seq<string>>, count: Option<int>, premiseFixed: bool)

  /** Entries of `requires` that are not mappings are `None`. */
  datatype Contract = Contract(requires_: map<string, Option<Axis>>, specs: seq<Spec>)

  datatype Code = DV5 | DV6 | DV7 | DV8 | DV9
  datatype Finding = Finding(code: Code, axis: string)

  const VOCAB_PREFIX := "bible.device_vocabulary."

  predicate Nonempty(s: Option<string>) {
    s.Some? && s.value != ""
  }

  function AxisOf(spec: Spec): Option<string> {
    if Nonempty(spec.category) then spec.category
    else if spec.source.Some? && VOCAB_PREFIX <= spec.source.value then Some(Strip(spec.source.value[|VOCAB_PREFIX|..]))
    else None
  }

  function PickCount(spec: Spec): nat {
    match spec.pick
    case Absent => 1
    case Malformed => 1
    case Count(n) => if n > 0 then n else 0
  }

  // ----- what the specs take, counted by meaning -----

  predicate Draws(spec: Spec, axis: string) {
    AxisOf(spec) == Some(axis)
  }

  function Picks(specs: seq<Spec>, axis: string): nat {
    if |specs| == 0 then 0
    else Picks(specs[..|specs| - 1], axis) + if Draws(specs[|specs| - 1], axis) then PickCount(specs[|specs| - 1]) else 0
  }

  /** The picks of the specs that pin no kind. */
  function FreePicks(specs: seq<Spec>, axis: string): nat {
    if |specs| == 0 then 0
    else
      var s := specs[|specs| - 1];
      FreePicks(specs[..|specs| - 1], axis) + if Draws(s, axis) && !Nonempty(s.must) then PickCount(s) else 0
  }

  predicate Pins(spec: Spec, axis: string) {
    Draws(spec, axis) && Nonempty(spec.must)
  }

  /** The kinds that specs of the axis pin. */
  function FrozenKinds(specs: seq<Spec>, axis: string): (kinds: set<string>)
    ensures forall k :: k in kinds <==> exists i :: 0 <= i < |specs| && Pins(specs[i], axis) && specs[i].must.value == k
  {
    if |specs| == 0 then {}
    else
      var s := specs[|specs| - 1];
      assert specs == specs[..|specs| - 1] + [s];
      if Pins(s, axis) then FrozenKinds(specs[..|specs| - 1], axis) + {s.must.value}
      else FrozenKinds(specs[..|specs| - 1], axis)
  }

  // ----- the counting loop -----

  function Lookup(m: map<string, nat>, k: string): nat {
    if k in m then m[k] else 0
  }

  function KindsAt(m: map<string, set<string>>, k: string): set<string> {
    if k in m then m[k] else {}
  }

  /** One more spec's effect on every total of an axis. */
  lemma {:induction false} OneMoreSpec(specs: seq<Spec>, n: nat, a: string)
    requires n < |specs|
    ensures var less, more, s := specs[..n], specs[..n + 1], specs[n];
            && Picks(more, a) == Picks(less, a) + (if Draws(s, a) then PickCount(s) else 0)
            && FreePicks(more, a) == FreePicks(less, a) + (if Draws(s, a) && !Nonempty(s.must) then PickCount(s) else 0)
            && FrozenKinds(more, a) == if Pins(s, a) then FrozenKinds(less, a) + {s.must.value} else FrozenKinds(less, a)
  {
    assert specs[..n + 1][..n] == specs[..n];
  }

  /** The dictionaries the loop keeps, one entry per axis. */
  datatype Totals = Totals(picks: map<string, nat>, frozenPicks: map<string, nat>, frozenKinds: map<string, set<string>>)

  ghost predicate ConsumedAt(t: Totals, specs: seq<Spec>, a: string) {
    && Lookup(t.picks, a) == Picks(specs, a)
    && Lookup(t.picks, a) == Lookup(t.frozenPicks, a) + FreePicks(specs, a)
    && KindsAt(t.frozenKinds, a) == FrozenKinds(specs, a)
  }

  function Consume(t: Totals, spec: Spec): Totals {
    var drawn, count := AxisOf(spec), PickCount(spec);
    if drawn.None? then t
    else
      var axis := drawn.value;
      var picks := t.picks[axis := Lookup(t.picks, axis) + count];
      if Nonempty(spec.must) then
        Totals(picks, t.frozenPicks[axis := Lookup(t.frozenPicks, axis) + count],
               t.frozenKinds[axis := KindsAt(t.frozenKinds, axis) + {spec.must.value}])
      else t.(picks := picks)
  }

  lemma {:induction false} ConsumedStep(t: Totals, specs: seq<Spec>, i: nat, a: string)
    requires i < |specs| && ConsumedAt(t, specs[..i], a)
    ensures ConsumedAt(Consume(t, specs[i]), specs[..i + 1], a)
  {
    OneMoreSpec(specs, i, a);
    hide Picks, FreePicks, FrozenKinds, AxisOf, PickCount, Nonempty;
    DrawsIs(specs[i], a);
  }

  lemma {:induction false} DrawsIs(spec: Spec, a: string)
    ensures Draws(spec, a) <==> AxisOf(spec) == Some(a)
  {
    hide PickCount, Nonempty;
  }

  ghost predicate Consumed(t: Totals, specs: seq<Spec>) {
    forall a :: ConsumedAt(t, specs, a)
  }

  lemma {:induction false} ConsumedMore(t: Totals, specs: seq<Spec>, i: nat)
    requires i < |specs| && Consumed(t, specs[..i])
    ensures Consumed(Consume(t, specs[i]), specs[..i + 1])
  {
    hide ConsumedAt, Consume;
    var after, more := Consume(t, specs[i]), specs[..i + 1];
    forall a
      ensures ConsumedAt(after, more, a)
    {
      ConsumedStep(t, specs, i, a);
    }
  }

  lemma NothingConsumed()
    ensures Consumed(Totals(map[], map[], map[]), [])
  {
  }

  lemma {:induction false} TotalsAre(t: Totals, specs: seq<Spec>)
    requires Consumed(t, specs)
    ensures forall a :: Lookup(t.picks, a) == Picks(specs, a)
    ensures forall a :: Lookup(t.picks, a) == Lookup(t.frozenPicks, a) + FreePicks(specs, a)
    ensures forall a :: KindsAt(t.frozenKinds, a) == FrozenKinds(specs, a)
  {
    hide Lookup, KindsAt, Picks, FreePicks, FrozenKinds;
    forall a
      ensures Lookup(t.picks, a) == Picks(specs, a)
      ensures Lookup(t.picks, a) == Lookup(t.frozenPicks, a) + FreePicks(specs, a)
      ensures KindsAt(t.frozenKinds, a) == FrozenKinds(specs, a)
    {
      assert ConsumedAt(t, specs, a);
    }
  }

  /** Totals per axis. A pinned spec counts in both totals, so the frozen picks never
      exceed the picks and what is left over is the picks of the free specs. */
  method Consumption(specs: seq<Spec>)
    returns (picks: map<string, nat>, frozenPicks: map<string, nat>, frozenKinds: map<string, set<string>>)
    ensures forall a :: Lookup(picks, a) == Picks(specs, a)
    ensures forall a :: Lookup(picks, a) == Lookup(frozenPicks, a) + FreePicks(specs, a)
    ensures forall a :: KindsAt(frozenKinds, a) == FrozenKinds(specs, a)
  {
    hide *;
    var t := Totals(map[], map[], map[]);
    NothingConsumed();
    for i := 0 to |specs|
      invariant Consumed(t, specs[..i])
    {
      ConsumedMore(t, specs, i);
      t := Consume(t, specs[i]);
    }
    assert specs[..|specs|] == specs;
    picks, frozenPicks, frozenKinds := t.picks, t.frozenPicks, t.frozenKinds;
    TotalsAre(t, specs);
  }

  // ----- capacity -----

  datatype Capacity = Capacity(picks: int, frozenPicks: int, distinctKinds: int, frozenKinds: int, premiseFixed: bool) {
    function FreePicks(): nat {
      if picks > frozenPicks then picks - frozenPicks else 0
    }

    function FreeKinds(): nat {
      if distinctKinds > frozenKinds then distinctKinds - frozenKinds else 0
    }

    function BooksSupported(): Option<nat> {
      if FreePicks() == 0 then None else Some(FreeKinds() / FreePicks())
    }

    function ForcedRepeatBook(): Option<nat> {
      match BooksSupported()
      case None => None
      case Some(n) => Some(n + 1)
    }
  }

  function DeclaredCount(axis: Axis): int {
    if axis.count.Some? then axis.count.value else 0
  }

  function KindSet(kinds: seq<string>): set<string> {
    set k | k in kinds
  }

  predicate Configured(c: Contract, axis: string) {
    axis in c.requires_ && c.requires_[axis].Some?
  }

  predicate Enumerates(c: Contract, axis: string) {
    Configured(c, axis) && c.requires_[axis].value.kinds.Some?
  }

  /** The axis's capacity, by what the specs take from it. */
  function CapacityOf(c: Contract, axis: string): Capacity
    requires Enumerates(c, axis)
  {
    var a := c.requires_[axis].value;
    Capacity(DeclaredCount(a), Picks(c.specs, axis) - FreePicks(c.specs, axis),
             |KindSet(a.kinds.value)|, |FrozenKinds(c.specs, axis)|, a.premiseFixed)
  }

  /** The declared count is not what the specs take. */
  predicate Miscounted(c: Contract, axis: string) {
    Configured(c, axis) && DeclaredCount(c.requires_[axis].value) != Picks(c.specs, axis)
  }

  predicate PinsOutside(c: Contract, spec: Spec, axis: string) {
    && Draws(spec, axis) && Enumerates(c, axis)
    && spec.must.Some? && spec.must.value !in c.requires_[axis].value.kinds.value
  }

  lemma {:induction false} OnlyConfigured(c: Contract, a: string, books: int)
    ensures Miscounted(c, a) || RepeatsWithin(c, a, books) ==> a in c.requires_
  {
    hide Picks, FreePicks, FrozenKinds;
  }

  /** Some spec draws from the axis by its source alone. */
  predicate Uncategorised(c: Contract, axis: string) {
    exists i :: 0 <= i < |c.specs| && Draws(c.specs[i], axis) && !Nonempty(c.specs[i].category)
  }

  /** Some spec draws from an axis the contract does not declare. */
  predicate Undeclared(c: Contract, axis: string) {
    !Configured(c, axis) && exists i :: 0 <= i < |c.specs| && Draws(c.specs[i], axis)
  }

  /** Some spec pins a kind that the axis does not enumerate. */
  predicate Unsatisfiable(c: Contract, axis: string) {
    exists i :: 0 <= i < |c.specs| && PinsOutside(c, c.specs[i], axis)
  }

  predicate MustRepeat(cap: Capacity, books: int) {
    !cap.premiseFixed && cap.ForcedRepeatBook().Some? && cap.ForcedRepeatBook().value <= books
  }

  predicate RepeatsWithin(c: Contract, axis: string, books: int) {
    Enumerates(c, axis) && MustRepeat(CapacityOf(c, axis), books)
  }

  // ----- the checks -----

  lemma {:induction false} PinsWhereDrawn(c: Contract, spec: Spec, axis: string)
    ensures PinsOutside(c, spec, axis) ==> Draws(spec, axis) && Configured(c, axis)
  {
    hide Draws;
  }

  lemma {:induction false} PinsMeans(c: Contract, spec: Spec, axis: string)
    requires Draws(spec, axis) && Configured(c, axis)
    ensures var kinds := c.requires_[axis].value.kinds;
            PinsOutside(c, spec, axis) <==> spec.must.Some? && kinds.Some? && spec.must.value !in kinds.value
  {
    hide Draws;
  }

  function Listed(axis: string, uncategorised: bool, undeclared: bool, outside: bool): (findings: seq<Finding>)
    ensures forall f :: f in findings <==>
              || (uncategorised && f == Finding(DV8, axis))
              || (undeclared && f == Finding(DV9, axis))
              || (outside && f == Finding(DV7, axis))
  {
    var first := if uncategorised then [Finding(DV8, axis)] else [];
    var second := if undeclared then first + [Finding(DV9, axis)] else first;
    if outside then second + [Finding(DV7, axis)] else second
  }

  ghost predicate SpecFindings(c: Contract, spec: Spec, findings: seq<Finding>) {
    && (forall f :: f in findings ==> f.code in {DV7, DV8, DV9})
    && (forall a :: Finding(DV7, a) in findings <==> PinsOutside(c, spec, a))
    && (forall a :: Finding(DV8, a) in findings <==> Draws(spec, a) && !Nonempty(spec.category))
    && forall a :: Finding(DV9, a) in findings <==> Draws(spec, a) && !Configured(c, a)
  }

  lemma {:induction false} ListedAre(c: Contract, spec: Spec, axis: string)
    requires AxisOf(spec) == Some(axis)
    ensures SpecFindings(c, spec, Listed(axis, !Nonempty(spec.category), !Configured(c, axis), PinsOutside(c, spec, axis)))
  {
    hide AxisOf, Nonempty, Configured, PinsOutside, Listed;
    forall a
      ensures Draws(spec, a) <==> a == axis
      ensures PinsOutside(c, spec, a) ==> a == axis
    {
      DrawsIs(spec, a);
      PinsWhereDrawn(c, spec, a);
    }
    hide Draws;
  }

  lemma {:induction false} NoneListed(c: Contract, spec: Spec)
    requires AxisOf(spec).None?
    ensures SpecFindings(c, spec, [])
  {
    hide AxisOf;
  }

  /** One spec against the axis it draws from. */
  method CheckSpec(c: Contract, spec: Spec) returns (findings: seq<Finding>)
    ensures SpecFindings(c, spec, findings)
  {
    hide SpecFindings, AxisOf, Nonempty, PinsOutside;
    var drawn := AxisOf(spec);
    if drawn.None? {
      NoneListed(c, spec);
      return [];
    }
    var axis := drawn.value;
    DrawsIs(spec, axis);
    ListedAre(c, spec, axis);
    PinsWhereDrawn(c, spec, axis);
    findings := if !Nonempty(spec.category) then [Finding(DV8, axis)] else [];
    if axis !in c.requires_ || c.requires_[axis].None? {
      return findings + [Finding(DV9, axis)];
    }
    PinsMeans(c, spec, axis);
    var kinds := c.requires_[axis].value.kinds;
    if spec.must.Some? && kinds.Some? && spec.must.value !in kinds.value {
      findings := findings + [Finding(DV7, axis)];
    }
  }

  method CheckSpecs(c: Contract) returns (findings: seq<Finding>)
    ensures forall f :: f in findings ==> f.code in {DV7, DV8, DV9}
    ensures forall a :: Finding(DV7, a) in findings <==> Unsatisfiable(c, a)
    ensures forall a :: Finding(DV8, a) in findings <==> Uncategorised(c, a)
    ensures forall a :: Finding(DV9, a) in findings <==> Undeclared(c, a)
  {
    hide PinsOutside, Draws, Nonempty, Configured;
    findings := [];
    for i := 0 to |c.specs|
      invariant forall f :: f in findings ==> f.code in {DV7, DV8, DV9}
      invariant forall a :: Finding(DV7, a) in findings <==> exists j :: 0 <= j < i && PinsOutside(c, c.specs[j], a)
      invariant forall a :: Finding(DV8, a) in findings
                       <==> exists j :: 0 <= j < i && Draws(c.specs[j], a) && !Nonempty(c.specs[j].category)
      invariant forall a :: Finding(DV9, a) in findings
                       <==> exists j :: 0 <= j < i && Draws(c.specs[j], a) && !Configured(c, a)
    {
      var found := CheckSpec(c, c.specs[i]);
      findings := findings + found;
    }
  }

  method Analyse(c: Contract, books: int) returns (findings: seq<Finding>)
    ensures forall a :: Finding(DV5, a) in findings <==> Miscounted(c, a)
    ensures forall a :: Finding(DV6, a) in findings <==> RepeatsWithin(c, a, books)
    ensures forall a :: Finding(DV7, a) in findings <==> Unsatisfiable(c, a)
    ensures forall a :: Finding(DV8, a) in findings <==> Uncategorised(c, a)
    ensures forall a :: Finding(DV9, a) in findings <==> Undeclared(c, a)
  {
    hide *;
    var picks, frozenPicks, frozenKinds := Consumption(c.specs);
    findings := CheckSpecs(c);
    var axes := Sorted(c.requires_.Keys);
    assert forall a :: a in c.requires_ <==> a in axes;
    for i := 0 to |axes|
      invariant forall a :: Finding(DV7, a) in findings <==> Unsatisfiable(c, a)
      invariant forall a :: Finding(DV8, a) in findings <==> Uncategorised(c, a)
      invariant forall a :: Finding(DV9, a) in findings <==> Undeclared(c, a)
      invariant forall a :: Finding(DV5, a) in findings <==> Miscounted(c, a) && exists j :: 0 <= j < i && axes[j] == a
      invariant forall a :: Finding(DV6, a) in findings <==> RepeatsWithin(c, a, books) && exists j :: 0 <= j < i && axes[j] == a
    {
      var axis := axes[i];
      assert axis in axes;
      var found := CheckAxis(c, axis, books, Lookup(picks, axis), Lookup(frozenPicks, axis), KindsAt(frozenKinds, axis));
      findings := findings + found;
    }
    forall a
      ensures Miscounted(c, a) || RepeatsWithin(c, a, books) ==> a in axes
    {
      OnlyConfigured(c, a, books);
    }
  }

  /** The count and headroom checks of one axis. */
  method CheckAxis(c: Contract, axis: string, books: int, picks: nat, frozenPicks: nat, frozenKinds: set<string>)
    returns (findings: seq<Finding>)
    requires axis in c.requires_
    requires picks == Picks(c.specs, axis) && frozenPicks == picks - FreePicks(c.specs, axis)
    requires frozenKinds == FrozenKinds(c.specs, axis)
    ensures forall f :: f in findings <==>
              || (f == Finding(DV5, axis) && Miscounted(c, axis))
              || (f == Finding(DV6, axis) && RepeatsWithin(c, axis, books))
  {
    findings := [];
    if c.requires_[axis].None? {
      return;
    }
    var config := c.requires_[axis].value;
    var count := DeclaredCount(config);
    if count != picks {
      findings := [Finding(DV5, axis)];
    }
    if config.kinds.None? {
      return;
    }
    var capacity := Capacity(count, frozenPicks, |KindSet(config.kinds.value)|, |frozenKinds|, config.premiseFixed);
    assert capacity == CapacityOf(c, axis);
    var repeatAt := capacity.ForcedRepeatBook();
    if !config.premiseFixed && repeatAt.Some? && repeatAt.value <= books {
      findings := findings + [Finding(DV6, axis)];
    }
  }

  // ----- what headroom means -----

  ghost predicate NoRepeats(q: seq<string>) {
    forall i, j :: 0 <= i < j < |q| ==> q[i] != q[j]
  }

  /** A series of `books` books gives each free pick of the axis a kind of its own,
      never used before in the series and never one that a spec pins. */
  ghost predicate FreshBinding(c: Contract, axis: string, books: nat, rows: seq<seq<string>>)
    requires Enumerates(c, axis)
  {
    && |rows| == books
    && (forall b :: 0 <= b < books ==> |rows[b]| == FreePicks(c.specs, axis))
    && NoRepeats(Flat(rows))
    && forall k :: k in Flat(rows) ==> k in c.requires_[axis].value.kinds.value && k !in FrozenKinds(c.specs, axis)
  }

  function FreeKindSet(c: Contract, axis: string): set<string>
    requires Enumerates(c, axis)
  {
    KindSet(c.requires_[axis].value.kinds.value) - FrozenKinds(c.specs, axis)
  }

  lemma {:induction false} FlatLength(rows: seq<seq<string>>, width: nat)
    requires forall b :: 0 <= b < |rows| ==> |rows[b]| == width
    ensures |Flat(rows)| == |rows| * width
  {
    if |rows| > 0 {
      FlatLength(rows[..|rows| - 1], width);
      assert |rows| * width == (|rows| - 1) * width + width;
    }
  }

  lemma {:induction false} Pigeonhole(q: seq<string>, s: set<string>)
    requires NoRepeats(q) && forall k :: k in q ==> k in s
    ensures |q| <= |s|
  {
    if |q| > 0 {
      var m := |q| - 1;
      assert q == q[..m] + [q[m]];
      assert q[m] in q;
      Pigeonhole(q[..m], s - {q[m]});
    }
  }

  lemma {:induction false} Enumerate(s: set<string>) returns (q: seq<string>)
    ensures NoRepeats(q) && |q| == |s| && forall k :: k in q <==> k in s
  {
    if s == {} {
      q := [];
    } else {
      var x :| x in s;
      q := Enumerate(s - {x});
      q := q + [x];
    }
  }

  /** Cuts the first `books * width` kinds of an enumeration into rows. */
  lemma {:induction false} Cut(q: seq<string>, books: nat, width: nat) returns (rows: seq<seq<string>>)
    requires books * width <= |q|
    ensures |rows| == books && forall b :: 0 <= b < books ==> |rows[b]| == width
    ensures Flat(rows) == q[..books * width]
  {
    if books == 0 {
      rows := [];
    } else {
      var k := (books - 1) * width;
      assert k + width == books * width;
      rows := Cut(q, books - 1, width);
      var more := rows + [q[k..k + width]];
      assert more[..books - 1] == rows;
      rows := more;
      assert q[..k] + q[k..k + width] == q[..k + width];
    }
  }

  /** At the bound, the pigeonhole forces a repeat. */
  lemma {:induction false} BindingNeedsRoom(c: Contract, axis: string, books: nat, rows: seq<seq<string>>)
    requires Enumerates(c, axis) && FreshBinding(c, axis, books, rows)
    ensures books * FreePicks(c.specs, axis) <= |FreeKindSet(c, axis)|
  {
    FlatLength(rows, FreePicks(c.specs, axis));
    var q, pool := Flat(rows), FreeKindSet(c, axis);
    assert forall k :: k in q ==> k in pool;
    hide *;
    Pigeonhole(q, pool);
  }

  lemma {:induction false} RowsFrom(pool: set<string>, books: nat, width: nat) returns (rows: seq<seq<string>>)
    requires books * width <= |pool|
    ensures |rows| == books && forall b :: 0 <= b < books ==> |rows[b]| == width
    ensures NoRepeats(Flat(rows)) && forall k :: k in Flat(rows) ==> k in pool
  {
    var q := Enumerate(pool);
    rows := Cut(q, books, width);
    var n := books * width;
    hide Flat;
    assert forall k :: k in q[..n] ==> k in q;
  }

  /** Below it, a binding without repeats is built. */
  lemma {:induction false} RoomGivesBinding(c: Contract, axis: string, books: nat) returns (rows: seq<seq<string>>)
    requires Enumerates(c, axis) && books * FreePicks(c.specs, axis) <= |FreeKindSet(c, axis)|
    ensures FreshBinding(c, axis, books, rows)
  {
    rows := RowsFrom(FreeKindSet(c, axis), books, FreePicks(c.specs, axis));
    hide FreePicks, FrozenKinds, Flat, NoRepeats;
  }

  /** A fresh binding exists exactly when the free kinds suffice for all free picks. */
  lemma {:induction false} BindingIffRoom(c: Contract, axis: string, books: nat)
    requires Enumerates(c, axis)
    ensures (exists rows :: FreshBinding(c, axis, books, rows)) <==> books * FreePicks(c.specs, axis) <= |FreeKindSet(c, axis)|
  {
    hide FreshBinding, FreePicks, FreeKindSet;
    if rows :| FreshBinding(c, axis, books, rows) {
      BindingNeedsRoom(c, axis, books, rows);
    }
    if books * FreePicks(c.specs, axis) <= |FreeKindSet(c, axis)| {
      var rows := RoomGivesBinding(c, axis, books);
    }
  }

  /** For a clean axis the headroom check fires exactly when no binder can avoid a
      repeat: within the bound a disjoint binding exists, at it every binding repeats. */
  lemma {:induction false} HeadroomIsExact(c: Contract, axis: string, books: nat)
    requires Enumerates(c, axis) && !c.requires_[axis].value.premiseFixed
    requires !Miscounted(c, axis) && !Unsatisfiable(c, axis)
    ensures RepeatsWithin(c, axis, books) <==> !exists rows :: FreshBinding(c, axis, books, rows)
  {
    var cap, free, pool := CapacityOf(c, axis), FreePicks(c.specs, axis), FreeKindSet(c, axis);
    FreeAtMostPicks(c.specs, axis);
    FrozenAreKinds(c, axis);
    BindingIffRoom(c, axis, books);
    hide FreshBinding, FrozenKinds, Miscounted, Unsatisfiable;
    assert cap.FreePicks() == free && cap.FreeKinds() == |pool|;
    RoomByDivision(|pool|, free, books);
  }

  lemma {:induction false} FreeAtMostPicks(specs: seq<Spec>, axis: string)
    ensures FreePicks(specs, axis) <= Picks(specs, axis)
  {
    if |specs| > 0 {
      FreeAtMostPicks(specs[..|specs| - 1], axis);
    }
  }

  lemma {:induction false} FrozenAreKinds(c: Contract, axis: string)
    requires Enumerates(c, axis) && !Unsatisfiable(c, axis)
    ensures FrozenKinds(c.specs, axis) <= KindSet(c.requires_[axis].value.kinds.value)
    ensures |FreeKindSet(c, axis)| == |KindSet(c.requires_[axis].value.kinds.value)| - |FrozenKinds(c.specs, axis)|
  {
    forall k | k in FrozenKinds(c.specs, axis)
      ensures k in c.requires_[axis].value.kinds.value
    {
      var i :| 0 <= i < |c.specs| && Pins(c.specs[i], axis) && c.specs[i].must.value == k;
      assert !PinsOutside(c, c.specs[i], axis);
    }
  }

  lemma RoomByDivision(pool: nat, free: nat, books: nat)
    ensures free > 0 ==> (pool / free + 1 <= books <==> books * free > pool)
  {
    if free > 0 {
      var q, r := pool / free, pool % free;
      assert pool == q * free + r;
      if q + 1 <= books {
        assert (q + 1) * free <= books * free;
      } else {
        assert books * free <= q * free;
      }
    }
  }

  // ----- on axes that are not clean -----

  /** Pinned kinds that the axis does not enumerate. */
  function PinnedOutside(c: Contract, axis: string): set<string>
    requires Enumerates(c, axis)
  {
    FrozenKinds(c.specs, axis) - KindSet(c.requires_[axis].value.kinds.value)
  }

  function AtLeastZero(n: int): nat {
    if n > 0 then n else 0
  }

  lemma {:induction false} FreeKindsCounted(c: Contract, axis: string)
    requires Enumerates(c, axis)
    ensures |KindSet(c.requires_[axis].value.kinds.value)| - |FrozenKinds(c.specs, axis)|
         == |FreeKindSet(c, axis)| - |PinnedOutside(c, axis)|
  {
    var kinds, frozen := KindSet(c.requires_[axis].value.kinds.value), FrozenKinds(c.specs, axis);
    hide FrozenKinds, KindSet;
    assert kinds == (kinds - frozen) + (kinds * frozen);
    assert frozen == (frozen - kinds) + (kinds * frozen);
    assert |kinds| == |kinds - frozen| + |kinds * frozen|;
    assert |frozen| == |frozen - kinds| + |kinds * frozen|;
  }

  /** What the check bills on any axis: the free picks raised by what is over-declared and
      lowered by what is under-declared, against the free kinds less every pinned kind that
      the axis does not even have. */
  lemma {:induction false} HeadroomBills(c: Contract, axis: string, books: nat)
    requires Enumerates(c, axis) && !c.requires_[axis].value.premiseFixed
    ensures var declared := DeclaredCount(c.requires_[axis].value);
            var picks := AtLeastZero(FreePicks(c.specs, axis) + declared - Picks(c.specs, axis));
            var kinds := AtLeastZero(|FreeKindSet(c, axis)| - |PinnedOutside(c, axis)|);
            RepeatsWithin(c, axis, books) <==> books * picks > kinds
  {
    FreeKindsCounted(c, axis);
    BilledFigures(c, axis);
    hide FrozenKinds, Picks, FreePicks, FreeKindSet, PinnedOutside, AtLeastZero, DeclaredCount, CapacityOf;
    MustRepeatMeans(CapacityOf(c, axis), books);
  }

  lemma {:induction false} BilledFigures(c: Contract, axis: string)
    requires Enumerates(c, axis)
    ensures var declared, cap := DeclaredCount(c.requires_[axis].value), CapacityOf(c, axis);
            && cap.FreePicks() == AtLeastZero(FreePicks(c.specs, axis) + declared - Picks(c.specs, axis))
            && cap.FreeKinds()
               == AtLeastZero(|KindSet(c.requires_[axis].value.kinds.value)| - |FrozenKinds(c.specs, axis)|)
            && cap.premiseFixed == c.requires_[axis].value.premiseFixed
  {
    hide FrozenKinds, Picks, FreePicks, KindSet;
  }

  lemma MustRepeatMeans(cap: Capacity, books: int)
    ensures MustRepeat(cap, books) <==> !cap.premiseFixed && books * cap.FreePicks() > cap.FreeKinds()
  {
    if books >= 0 {
      RoomByDivision(cap.FreeKinds(), cap.FreePicks(), books);
    } else {
      assert books * cap.FreePicks() <= 0;
    }
  }

  lemma BilledAtLeast(books: nat, free: nat, declared: int, picks: nat, pool: nat, outside: nat)
    requires declared >= picks && books * free > pool
    ensures books * AtLeastZero(free + declared - picks) > AtLeastZero(pool - outside)
  {
    assert books * free <= books * (free + (declared - picks));
  }

  lemma BilledAtMost(books: nat, free: nat, declared: int, picks: nat, pool: nat)
    requires declared <= picks && books * AtLeastZero(free + declared - picks) > pool
    ensures books * free > pool
  {
    assert books * AtLeastZero(free + declared - picks) <= books * free;
  }

  /** As long as the declared count covers what the specs take, the check fires whenever no
      binder can avoid a repeat, pins outside the vocabulary or not. */
  lemma {:induction false} NoRepeatGoesUnreported(c: Contract, axis: string, books: nat)
    requires Enumerates(c, axis) && !c.requires_[axis].value.premiseFixed
    requires DeclaredCount(c.requires_[axis].value) >= Picks(c.specs, axis)
    requires !exists rows :: FreshBinding(c, axis, books, rows)
    ensures RepeatsWithin(c, axis, books)
  {
    hide FreshBinding, Picks, FreePicks, FrozenKinds, RepeatsWithin, FreeKindSet, PinnedOutside, KindSet, AtLeastZero;
    HeadroomBills(c, axis, books);
    BindingIffRoom(c, axis, books);
    BilledAtLeast(books, FreePicks(c.specs, axis), DeclaredCount(c.requires_[axis].value), Picks(c.specs, axis),
                  |FreeKindSet(c, axis)|, |PinnedOutside(c, axis)|);
  }

  lemma {:induction false} NonePinnedOutside(c: Contract, axis: string)
    requires Enumerates(c, axis) && !Unsatisfiable(c, axis)
    ensures AtLeastZero(|FreeKindSet(c, axis)| - |PinnedOutside(c, axis)|) == |FreeKindSet(c, axis)|
  {
    FrozenAreKinds(c, axis);
    hide FrozenKinds;
    assert PinnedOutside(c, axis) == {};
  }

  /** As long as the declared count is not above what the specs take and no pin lies outside
      the vocabulary, the check fires only when no binder can avoid a repeat. */
  lemma {:induction false} NothingReportedWrongly(c: Contract, axis: string, books: nat)
    requires Enumerates(c, axis) && !c.requires_[axis].value.premiseFixed
    requires DeclaredCount(c.requires_[axis].value) <= Picks(c.specs, axis) && !Unsatisfiable(c, axis)
    requires RepeatsWithin(c, axis, books)
    ensures !exists rows :: FreshBinding(c, axis, books, rows)
  {
    hide FreshBinding, Picks, FreePicks, FrozenKinds, RepeatsWithin, FreeKindSet, PinnedOutside, KindSet, AtLeastZero;
    HeadroomBills(c, axis, books);
    BindingIffRoom(c, axis, books);
    NonePinnedOutside(c, axis);
    BilledAtMost(books, FreePicks(c.specs, axis), DeclaredCount(c.requires_[axis].value), Picks(c.specs, axis),
                 |FreeKindSet(c, axis)|);
  }

  function Support(kinds: nat, picks: nat): Option<nat> {
    if picks == 0 then None else Some(kinds / picks)
  }

  lemma SupportMeans(kinds: nat, picks: nat, books: nat)
    ensures Exceeds(books, Support(kinds, picks)) <==> books * picks > kinds
  {
    RoomByDivision(kinds, picks, books);
  }

  /** The books that really can be bound without a repeat, unbounded when nothing is free. */
  function TrulySupported(c: Contract, axis: string): Option<nat>
    requires Enumerates(c, axis)
  {
    Support(|FreeKindSet(c, axis)|, FreePicks(c.specs, axis))
  }

  predicate Exceeds(books: nat, supported: Option<nat>) {
    supported.Some? && books > supported.value
  }

  lemma {:induction false} BeyondSupport(c: Contract, axis: string, books: nat)
    requires Enumerates(c, axis)
    ensures (exists rows :: FreshBinding(c, axis, books, rows)) <==> !Exceeds(books, TrulySupported(c, axis))
  {
    hide FreshBinding, FreePicks, FreeKindSet, Support, Exceeds;
    BindingIffRoom(c, axis, books);
    SupportMeans(|FreeKindSet(c, axis)|, FreePicks(c.specs, axis), books);
  }

  lemma SupportsDiffer(a: Option<nat>, b: Option<nat>) returns (books: nat)
    requires a != b
    ensures Exceeds(books, a) != Exceeds(books, b)
  {
    books := if a.None? then b.value + 1 else if b.None? then a.value + 1
             else if a.value < b.value then a.value + 1 else b.value + 1;
  }

  /** On any axis that is not premise-fixed, the check is right for every series length
      exactly when the miscount and the pins outside the vocabulary leave the quotient of
      free kinds by free picks where it is. */
  lemma {:induction false} RightIffQuotientIsKept(c: Contract, axis: string)
    requires Enumerates(c, axis) && !c.requires_[axis].value.premiseFixed
    ensures (forall books: nat :: RepeatsWithin(c, axis, books) <==> !exists rows :: FreshBinding(c, axis, books, rows))
       <==> var miscount := DeclaredCount(c.requires_[axis].value) - Picks(c.specs, axis);
            Support(AtLeastZero(|FreeKindSet(c, axis)| - |PinnedOutside(c, axis)|),
                    AtLeastZero(FreePicks(c.specs, axis) + miscount))
            == Support(|FreeKindSet(c, axis)|, FreePicks(c.specs, axis))
  {
    var billed, actual := CapacityOf(c, axis).BooksSupported(), TrulySupported(c, axis);
    FreeKindsCounted(c, axis);
    BilledFigures(c, axis);
    forall books: nat
      ensures RepeatsWithin(c, axis, books) <==> Exceeds(books, billed)
      ensures (exists rows :: FreshBinding(c, axis, books, rows)) <==> !Exceeds(books, actual)
    {
      BeyondSupport(c, axis, books);
    }
    hide FreshBinding, RepeatsWithin, CapacityOf, TrulySupported, Exceeds;
    if billed != actual {
      var books := SupportsDiffer(billed, actual);
      assert RepeatsWithin(c, axis, books) <==> Exceeds(books, billed);
    }
  }

  /** Neither condition can be dropped. A pinned kind outside the vocabulary is
      subtracted from it all the same, and the check fires although a binding exists. */
  lemma OutsidePinFiresWrongly()
    ensures var spec := Spec(Some("lamp"), None, Absent, None);
            var c := Contract(map["lamp" := Some(Axis(Some(["a"]), Some(2), false))], [spec, spec.(must := Some("z"))]);
            !Miscounted(c, "lamp") && RepeatsWithin(c, "lamp", 1) && FreshBinding(c, "lamp", 1, [["a"]])
  {
    var spec := Spec(Some("lamp"), None, Absent, None);
    var pinned := spec.(must := Some("z"));
    var c := Contract(map["lamp" := Some(Axis(Some(["a"]), Some(2), false))], [spec, pinned]);
    assert c.specs[..2] == c.specs && c.specs[..0] == [];
    OneMoreSpec(c.specs, 0, "lamp");
    OneMoreSpec(c.specs, 1, "lamp");
    assert FrozenKinds([], "lamp") + {"z"} == {"z"};
    assert KindSet(["a"]) == {"a"};
    assert Flat([["a"]]) == ["a"] by { assert [["a"]][..0] == []; }
  }

  /** A count above what the specs take bills picks that nobody makes. */
  lemma OvercountFiresWrongly()
    ensures var spec := Spec(Some("lamp"), None, Absent, None);
            var c := Contract(map["lamp" := Some(Axis(Some(["a"]), Some(2), false))], [spec]);
            !Unsatisfiable(c, "lamp") && RepeatsWithin(c, "lamp", 1) && FreshBinding(c, "lamp", 1, [["a"]])
  {
    var spec := Spec(Some("lamp"), None, Absent, None);
    var c := Contract(map["lamp" := Some(Axis(Some(["a"]), Some(2), false))], [spec]);
    assert c.specs[..1] == c.specs && c.specs[..0] == [];
    OneMoreSpec(c.specs, 0, "lamp");
    assert KindSet(["a"]) == {"a"};
    assert Flat([["a"]]) == ["a"] by { assert [["a"]][..0] == []; }
  }

  // ----- what a spec says it takes -----

  /** What stands after the prefix, without the space around it. */
  ghost predicate TailIs(prefix: string, source: string, axis: string) {
    Bare(axis) && exists left, right :: Blank(left) && Blank(right) && source == prefix + left + axis + right
  }

  /** The axis a spec names: its category if it has one, and otherwise what its source has
      after the vocabulary prefix, without the space around it. */
  ghost predicate Names(spec: Spec, axis: string) {
    if spec.category.Some? && spec.category.value != "" then spec.category.value == axis
    else spec.source.Some? && TailIs("bible.device_vocabulary.", spec.source.value, axis)
  }

  lemma {:induction false} TailIsStripped(prefix: string, source: string, axis: string)
    ensures TailIs(prefix, source, axis) <==> prefix <= source && Strip(source[|prefix|..]) == axis
  {
    hide Bare, Blank, Strip;
    if left, right :| Bare(axis) && Blank(left) && Blank(right) && source == prefix + left + axis + right {
      assert source == prefix + (left + axis + right);
      assert source[|prefix|..] == left + axis + right;
      StripTakesTheSpace(left, axis, right);
    }
    if prefix <= source {
      var tail := source[|prefix|..];
      var left, right := StripSplits(tail);
      assert source == prefix + left + Strip(tail) + right;
    }
  }

  lemma {:induction false} NamesIsDraws(spec: Spec, axis: string)
    ensures Names(spec, axis) <==> Draws(spec, axis)
  {
    if spec.source.Some? {
      TailIsStripped(VOCAB_PREFIX, spec.source.value, axis);
    }
    hide TailIs, Strip;
  }

  /** The single kinds a spec takes, numbered: as many as it picks, none if that is negative,
      and one where nothing sensible is said. */
  predicate Takes(spec: Spec, n: nat) {
    match spec.pick
    case Count(m) => n < m
    case Absent => n == 0
    case Malformed => n == 0
  }

  /** Spec by spec, the kinds taken from the axis; `free` leaves out the specs that pin one. */
  ghost function Taken(specs: seq<Spec>, axis: string, free: bool, most: nat): (taken: set<(nat, nat)>) {
    set i: nat, n: nat | i < |specs| && n < most && Names(specs[i], axis) && Takes(specs[i], n)
                         && (free ==> specs[i].must in {None, Some("")}) :: (i, n)
  }

  /** A number no pick reaches. */
  ghost predicate Bounds(specs: seq<Spec>, most: nat) {
    forall i, n: nat :: 0 <= i < |specs| && Takes(specs[i], n) ==> n < most
  }

  ghost function TakenAt(i: nat, count: nat): (taken: set<(nat, nat)>) {
    set n: nat | n < count :: (i, n)
  }

  lemma {:induction false} CountAt(i: nat, count: nat)
    ensures |TakenAt(i, count)| == count
  {
    if count == 0 {
      assert TakenAt(i, count) == {};
    } else {
      CountAt(i, count - 1);
      assert TakenAt(i, count) == TakenAt(i, count - 1) + {(i, count - 1)};
      assert (i, count - 1) !in TakenAt(i, count - 1);
    }
  }

  lemma {:induction false} LastTakes(specs: seq<Spec>, axis: string, free: bool, most: nat)
    requires specs != [] && Bounds(specs, most)
    ensures var k, s := |specs| - 1, specs[|specs| - 1];
            && Taken(specs, axis, free, most) == Taken(specs[..k], axis, free, most)
               + TakenAt(k, if Names(s, axis) && (free ==> !Nonempty(s.must)) then PickCount(s) else 0)
            && Taken(specs[..k], axis, free, most) !! TakenAt(k, PickCount(s))
            && Bounds(specs[..k], most)
  {
    hide Names;
    var k, s := |specs| - 1, specs[|specs| - 1];
    var count := if Names(s, axis) && (free ==> !Nonempty(s.must)) then PickCount(s) else 0;
    assert forall n: nat :: Takes(s, n) <==> n < PickCount(s);
    forall i: nat, n: nat
      ensures (i, n) in Taken(specs, axis, free, most)
         <==> (i, n) in Taken(specs[..k], axis, free, most) || (i, n) in TakenAt(k, count)
    {
      if i < k {
        assert specs[..k][i] == specs[i];
      } else if i == k {
        assert Takes(s, n) <==> n < PickCount(s);
        assert (k, n) in TakenAt(k, count) <==> n < count;
      }
    }
  }

  /** The totals count what the specs say: the picks of an axis are the kinds that the specs
      naming it take, one by one, and the free picks those of the specs that pin none. */
  lemma {:induction false} PicksAreTaken(specs: seq<Spec>, axis: string, most: nat)
    requires Bounds(specs, most)
    ensures Picks(specs, axis) == |Taken(specs, axis, false, most)|
    ensures FreePicks(specs, axis) == |Taken(specs, axis, true, most)|
  {
    if specs == [] {
      assert Taken(specs, axis, false, most) == {} == Taken(specs, axis, true, most);
    } else {
      var k, s := |specs| - 1, specs[|specs| - 1];
      LastTakes(specs, axis, false, most);
      LastTakes(specs, axis, true, most);
      PicksAreTaken(specs[..k], axis, most);
      NamesIsDraws(s, axis);
      CountAt(k, PickCount(s));
      CountAt(k, 0);
      hide Taken, Bounds, Names, TakenAt, PickCount, Draws;
      assert TakenAt(k, 0) == {};
    }
  }

  /** The pinned kinds are the non-empty texts the specs naming the axis ask for. */
  lemma {:induction false} FrozenAreAskedFor(specs: seq<Spec>, axis: string, kind: string)
    ensures kind in FrozenKinds(specs, axis)
       <==> kind != "" && exists i :: 0 <= i < |specs| && Names(specs[i], axis) && specs[i].must == Some(kind)
  {
    hide Names, FrozenKinds, Draws;
    forall i | 0 <= i < |specs|
      ensures Names(specs[i], axis) <==> Draws(specs[i], axis)
    {
      NamesIsDraws(specs[i], axis);
    }
    assert forall i :: 0 <= i < |specs| && Names(specs[i], axis) ==> (Pins(specs[i], axis) <==> Nonempty(specs[i].must));
  }

  /** An axis that declares no count is miscounted exactly when the specs take something. */
  lemma {:induction false} NothingDeclared(c: Contract, axis: string, most: nat)
    requires Configured(c, axis) && c.requires_[axis].value.count.None? && Bounds(c.specs, most)
    ensures Miscounted(c, axis) <==> Taken(c.specs, axis, false, most) != {}
  {
    hide Taken, Bounds, Picks;
    PicksAreTaken(c.specs, axis, most);
  }
}
