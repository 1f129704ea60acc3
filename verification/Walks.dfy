/**
 A forward-only iterator over a list it cannot seek in, and the loops the listings share: collecting a
 page, collecting everything, and skipping rows before a page.
 */
module Walks {
  import opened Wrappers

  function Prefix<T>(list: seq<T>, n: nat): (p: seq<T>) {
    if n < |list| then list[..n] else list
  }

  function Suffix<T>(list: seq<T>, n: nat): (s: seq<T>) {
    if n < |list| then list[n..] else []
  }

  /** As many rows as are wanted, or all that are left. */
  predicate Fills(count: nat, wanted: nat, left: nat) {
    count == if wanted < left then wanted else left
  }

  lemma PrefixSplits<T>(rest: seq<T>, k: nat, budget: nat, limit: nat)
    requires limit <= budget && k == if limit < |rest| then limit else |rest|
    ensures Prefix(rest, budget) == rest[..k] + Prefix(rest[k..], budget - limit)
  {
  }

  class Walk<T> {
    const list: seq<T>
    var position: nat

    predicate Valid()
      reads this
    {
      position <= |list|
    }

    function Rest(): (s: seq<T>)
      reads this
      requires Valid()
    {
      list[position..]
    }

    constructor (list: seq<T>)
      ensures Valid() && this.list == list && Rest() == list
    {
      this.list := list;
      position := 0;
    }

    method Next() returns (row: Option<T>)
      requires Valid()
      modifies this
      ensures Valid()
      ensures old(Rest()) == [] ==> row == None && Rest() == []
      ensures old(Rest()) != [] ==> row == Some(old(Rest())[0]) && Rest() == old(Rest())[1..]
    {
      if position == |list| {
        row := None;
      } else {
        row := Some(list[position]);
        position := position + 1;
      }
    }

    method CollectPage(limit: nat) returns (rows: seq<T>)
      requires Valid()
      modifies this
      ensures Valid() && rows == Prefix(old(Rest()), limit)
    {
      ghost var rest := Rest();
      rows := [];
      while |rows| < limit
        invariant Valid() && |rows| <= limit
        invariant |rows| <= |rest| && rows == rest[..|rows|] && Rest() == rest[|rows|..]
      {
        var row := Next();
        if row.None? {
          break;
        }
        rows := rows + [row.value];
      }
    }

    method CollectAll() returns (rows: seq<T>)
      requires Valid()
      modifies this
      ensures Valid() && rows == old(Rest())
    {
      ghost var rest := Rest();
      rows := [];
      while true
        invariant Valid()
        invariant |rows| <= |rest| && rows == rest[..|rows|] && Rest() == rest[|rows|..]
        decreases |Rest()|
      {
        var row := Next();
        if row.None? {
          return;
        }
        rows := rows + [row.value];
      }
    }

    /** `for _ in 0..offset`, stopping early when the list ends. */
    method Skip(offset: nat)
      requires Valid()
      modifies this
      ensures Valid() && Rest() == Suffix(old(Rest()), offset)
    {
      ghost var rest := Rest();
      var skipped := 0;
      while skipped < offset
        invariant Valid() && skipped <= offset
        invariant Rest() == Suffix(rest, skipped)
      {
        var row := Next();
        if row.None? {
          break;
        }
        skipped := skipped + 1;
      }
    }
  }
}
