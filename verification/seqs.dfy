/** Sequence helpers for result sets: ORDER BY ... DESC over an append-only
    log and LIMIT/OFFSET windows. */
module Seqs {

  function Reverse<T>(s: seq<T>): (r: seq<T>)
    ensures |r| == |s|
    ensures forall i :: 0 <= i < |s| ==> r[i] == s[|s| - 1 - i]
  {
    if s == [] then [] else Reverse(s[1..]) + [s[0]]
  }

  /** The rows that `LIMIT limit OFFSET offset` keeps. */
  function Page<T>(s: seq<T>, limit: nat, offset: nat): (r: seq<T>)
    ensures |r| <= limit
    ensures |r| == if offset >= |s| then 0 else if limit < |s| - offset then limit else |s| - offset
    ensures forall i :: 0 <= i < |r| ==> offset + i < |s| && r[i] == s[offset + i]
  {
    var rest := if offset < |s| then s[offset..] else [];
    if limit < |rest| then rest[..limit] else rest
  }

  /** A prefix of at most `limit` elements that is cut short only by the limit
      or the end of the sequence is its first page. */
  lemma PageOfPrefix<T>(all: seq<T>, rows: seq<T>, rest: seq<T>, limit: nat)
    requires all == rows + rest && |rows| <= limit && (|rows| == limit || rest == [])
    ensures Page(all, limit, 0) == rows
  {
    var page := Page(all, limit, 0);
    assert |page| == |rows|;
    forall i | 0 <= i < |rows|
      ensures page[i] == rows[i]
    {
      assert all[i] == rows[i];
    }
  }

  /** A sequence is its part before `i`, its element at `i` and its part after. */
  lemma SplitAt<T>(s: seq<T>, i: nat)
    requires i < |s|
    ensures s == s[..i] + ([s[i]] + s[i + 1..])
  {
  }

  ghost predicate Distinct<T>(s: seq<T>)
  {
    forall i, j :: 0 <= i < j < |s| ==> s[i] != s[j]
  }
}
