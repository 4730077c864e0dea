/**
 * The "usage" table as one read transaction sees it: the records a forward
 * cursor yields, in the store's key order. LMDB's default key order compares
 * the key bytes lexicographically, a proper prefix sorting first, and a table
 * holds each key at most once.
 */
module UsageTable {
  import opened UsageWire

  datatype Record = Record(key: string, value: seq<byte>)

  /** Lexicographic order on keys; a proper prefix is smaller. */
  predicate KeyLess(a: string, b: string)
  {
    if a == [] then b != []
    else if b == [] then false
    else a[0] < b[0] || (a[0] == b[0] && KeyLess(a[1..], b[1..]))
  }

  lemma {:induction false} KeyLessIrreflexive(a: string)
    ensures !KeyLess(a, a)
  {
    if a != [] {
      KeyLessIrreflexive(a[1..]);
    }
  }

  /** The records are in strictly ascending key order, as a cursor over the table yields them. */
  predicate InKeyOrder(rs: seq<Record>)
  {
    forall i, j :: 0 <= i < j < |rs| ==> KeyLess(rs[i].key, rs[j].key)
  }

  predicate DistinctKeys(rs: seq<Record>)
  {
    forall i, j :: 0 <= i < j < |rs| ==> rs[i].key != rs[j].key
  }

  /** A table in key order never holds a key twice. */
  lemma InKeyOrderDistinct(rs: seq<Record>)
    requires InKeyOrder(rs)
    ensures DistinctKeys(rs)
  {
    forall i, j | 0 <= i < j < |rs|
      ensures rs[i].key != rs[j].key
    {
      KeyLessIrreflexive(rs[i].key);
    }
  }
}
