/** The container types and the operations on them that several models share. */
module Collections {

  datatype Option<T> = None | Some(value: T)

  /** All rows, one after another. */
  function Flat<T>(rows: seq<seq<T>>): seq<T> {
    if |rows| == 0 then [] else Flat(rows[..|rows| - 1]) + rows[|rows| - 1]
  }

  lemma {:induction false} FlatFirst<T>(first: seq<T>, rest: seq<seq<T>>)
    ensures Flat([first] + rest) == first + Flat(rest)
  {
    var all := [first] + rest;
    if rest == [] {
      assert all[..0] == [];
    } else {
      var m := |rest| - 1;
      assert all[..|all| - 1] == [first] + rest[..m];
      FlatFirst(first, rest[..m]);
    }
  }
}
