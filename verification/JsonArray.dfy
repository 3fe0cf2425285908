/** Arrays as Json::Value keeps them: a map from the indices that were ever touched. Read through
    operator[], such a map is a sequence; the mutators extend and truncate that sequence. */
module JsonArray {
  import opened JsonValue

  ghost predicate IndexKeys(es: seq<Entry>) { forall i :: 0 <= i < |es| ==> es[i].key.Index? }

  /** The array as its reader sees it: missing indices read as null. */
  function Elements(es: seq<Entry>): (r: seq<Value>)
    ensures |r| == ArraySize(es)
  {
    seq(ArraySize(es), i requires 0 <= i < ArraySize(es) => Get(es, Index(i)))
  }

  /** s padded with nulls to at least n elements. */
  function Padded(s: seq<Value>, n: nat): seq<Value> {
    if n <= |s| then s else s + seq(n - |s|, _ => NULL_VALUE)
  }

  /** map_->erase(k) */
  function Erased(es: seq<Entry>, k: Key): seq<Entry> {
    if es == [] then []
    else if es[0].key == k then es[1..]
    else [es[0]] + Erased(es[1..], k)
  }

  lemma {:induction false} ErasedRemoves(es: seq<Entry>, k: Key)
    requires Sorted(es)
    ensures Sorted(Erased(es, k))
    ensures forall e :: e in Erased(es, k) <==> e in es && e.key != k
  {
    var r := Erased(es, k);
    if es != [] {
      if es[0].key == k {
        forall i | 0 < i < |es| ensures es[i].key != k { KeyLessTotal(es[0].key, es[i].key); }
        forall e | e in es && e.key != k ensures e in r {
          var i :| 0 <= i < |es| && es[i] == e;
          assert es[1..][i - 1] == e;
        }
      } else {
        ErasedRemoves(es[1..], k);
        assert r[1..] == Erased(es[1..], k);
        forall j | 0 < j < |r| ensures KeyLess(r[0].key, r[j].key) {
          assert r[j] in r[1..];
          var m :| 0 <= m < |es[1..]| && es[1..][m] == r[j];
          assert es[m + 1] == r[j];
        }
        SortedCons(r);
        assert es == [es[0]] + es[1..];
      }
    }
  }

  lemma GetOfMember(es: seq<Entry>, e: Entry)
    requires Sorted(es) && e in es
    ensures Get(es, e.key) == e.val
  {
    var i :| 0 <= i < |es| && es[i] == e;
    GetOfEntry(es, i);
  }

  /** Only an index below the size can be stored, and the last one is. */
  lemma StoredBelowSize(es: seq<Entry>)
    requires Sorted(es) && IndexKeys(es)
    ensures forall e :: e in es ==> e.key.i < ArraySize(es)
    ensures ArraySize(es) > 0 ==> Stored(es, Index(ArraySize(es) - 1))
  {
    forall e | e in es ensures e.key.i < ArraySize(es) {
      var i :| 0 <= i < |es| && es[i] == e;
      if i < |es| - 1 { assert KeyLess(es[i].key, es[|es| - 1].key); }
    }
  }

  /** The size is the least bound on the stored indices. */
  lemma SizeIs(es: seq<Entry>, n: nat)
    requires Sorted(es) && IndexKeys(es)
    requires forall e :: e in es ==> e.key.i < n
    requires n > 0 ==> Stored(es, Index(n - 1))
    ensures ArraySize(es) == n
  {
    StoredBelowSize(es);
    if n > 0 {
      var i :| 0 <= i < |es| && es[i].key == Index(n - 1);
      assert es[i] in es;
    }
    if ArraySize(es) > 0 {
      var j :| 0 <= j < |es| && es[j].key == Index(ArraySize(es) - 1);
      assert es[j] in es;
    }
  }

  lemma PutSize(es: seq<Entry>, i: nat, v: Value)
    requires Sorted(es) && IndexKeys(es)
    ensures var r := Put(es, Index(i), v);
      Sorted(r) && IndexKeys(r) && ArraySize(r) == if i < ArraySize(es) then ArraySize(es) else i + 1
  {
    PutIsMapUpdate(es, Index(i), v);
    StoredBelowSize(es);
    var r := Put(es, Index(i), v);
    forall j | 0 <= j < |r| ensures r[j].key.Index? { assert r[j] in r; }
    var n := if i < ArraySize(es) then ArraySize(es) else i + 1;
    var x: Entry;
    if n == i + 1 {
      x := Entry(Index(i), v);
    } else {
      var j :| 0 <= j < |es| && es[j].key == Index(n - 1);
      x := es[j];
    }
    assert x in r;
    var m :| 0 <= m < |r| && r[m] == x;
    SizeIs(r, n);
  }

  /** Storing at an index: null padding up to it, then a sequence update. */
  lemma PutElements(es: seq<Entry>, i: nat, v: Value)
    requires Sorted(es) && IndexKeys(es)
    ensures Elements(Put(es, Index(i), v)) == Padded(Elements(es), i + 1)[i := v]
  {
    hide Put, Get;
    PutSize(es, i, v);
    PutIsMapUpdate(es, Index(i), v);
    StoredBelowSize(es);
    var r, s := Elements(Put(es, Index(i), v)), Padded(Elements(es), i + 1)[i := v];
    forall j | 0 <= j < |r| ensures r[j] == s[j] {
      if j != i && j >= ArraySize(es) { GetOfMissing(es, Index(j)); }
    }
  }

  class ArrayValue {
    var entries: seq<Entry>

    ghost predicate Valid()
      reads this
    {
      Sorted(entries) && IndexKeys(entries)
    }

    ghost function Contents(): seq<Value>
      reads this
    {
      Elements(entries)
    }

    constructor ()
      ensures Valid() && Contents() == []
    {
      entries := [];
    }

    function Size(): (n: nat)
      reads this
      ensures n == |Contents()|
    {
      ArraySize(entries)
    }

    /** operator[](ArrayIndex): stores a null first where nothing is stored. */
    method Touch(index: nat) returns (v: Value)
      requires Valid()
      modifies this
      ensures Valid() && Contents() == Padded(old(Contents()), index + 1)
      ensures v == Contents()[index]
    {
      v := Get(entries, Index(index));
      PutElements(entries, index, v);
      StoredBelowSize(entries);
      if index >= ArraySize(entries) { GetOfMissing(entries, Index(index)); }
      PutSize(entries, index, v);
      entries := Put(entries, Index(index), v);
    }

    /** (*this)[index] = v */
    method Assign(index: nat, v: Value)
      requires Valid()
      modifies this
      ensures Valid() && Contents() == Padded(old(Contents()), index + 1)[index := v]
    {
      PutElements(entries, index, v);
      PutSize(entries, index, v);
      entries := Put(entries, Index(index), v);
    }

    method Append(v: Value)
      requires Valid()
      modifies this
      ensures Valid() && Contents() == old(Contents()) + [v]
    {
      Assign(Size(), v);
    }

    method Clear()
      modifies this
      ensures Valid() && Contents() == []
    {
      entries := [];
    }

    /** resize: growing pads with nulls, shrinking truncates. `asserted` is the outcome of the
        assertion size() == newSize at the end of the shrinking branch, which the source would stop
        on: it fails exactly when the array shrinks to end just behind a gap. */
    method Resize(newSize: nat) returns (asserted: bool)
      requires Valid()
      modifies this
      ensures Valid()
      ensures newSize > old(Size()) ==> Contents() == Padded(old(Contents()), newSize)
      ensures newSize <= old(Size()) ==> Padded(Contents(), newSize) == old(Contents())[..newSize]
      ensures asserted <==> newSize == 0 || newSize > old(Size()) || old(Stored(entries, Index(newSize - 1)))
      ensures asserted ==> Size() == newSize
    {
      var oldSize := Size();
      asserted := true;
      if newSize == 0 {
        Clear();
      } else if newSize > oldSize {
        var _ := Touch(newSize - 1);
      } else {
        ghost var before := entries;
        var index := newSize;
        while index < oldSize
          invariant newSize <= index <= oldSize
          invariant Sorted(entries)
          invariant forall e :: e in entries <==> e in before && !(newSize <= e.key.i < index)
          invariant IndexKeys(before)
        {
          ErasedRemoves(entries, Index(index));
          forall e | e in before ensures e.key == Index(e.key.i) { EntryKey(before, e); }
          entries := Erased(entries, Index(index));
          index := index + 1;
        }
        Truncated(before, entries, newSize);
        asserted := Size() == newSize;
      }
    }
  }

  lemma EntryKey(es: seq<Entry>, e: Entry)
    requires IndexKeys(es) && e in es
    ensures e.key.Index?
  {
  }

  /** What is left of `before` once every index from n on is erased. */
  lemma Truncated(before: seq<Entry>, es: seq<Entry>, n: nat)
    requires Sorted(before) && IndexKeys(before) && Sorted(es) && 0 < n <= ArraySize(before)
    requires forall e :: e in es <==> e in before && !(n <= e.key.i < ArraySize(before))
    ensures IndexKeys(es) && ArraySize(es) <= n
    ensures Padded(Elements(es), n) == Elements(before)[..n]
    ensures ArraySize(es) == n <==> Stored(before, Index(n - 1))
  {
    TruncatedSize(before, es, n);
    hide ArraySize, Get, Sorted, Stored;
    var r, s := Padded(Elements(es), n), Elements(before)[..n];
    forall i | 0 <= i < n ensures r[i] == s[i] { SameBelow(before, es, n, i); }
  }

  lemma TruncatedSize(before: seq<Entry>, es: seq<Entry>, n: nat)
    requires Sorted(before) && IndexKeys(before) && Sorted(es) && 0 < n <= ArraySize(before)
    requires forall e :: e in es <==> e in before && !(n <= e.key.i < ArraySize(before))
    ensures IndexKeys(es) && ArraySize(es) <= n
    ensures ArraySize(es) == n <==> Stored(before, Index(n - 1))
  {
    StoredBelowSize(before);
    hide ArraySize, Sorted;
    forall i | 0 <= i < |es| ensures es[i].key.Index? && es[i].key.i < n {
      assert es[i] in es;
    }
    StoredBelowSize(es);
    if ArraySize(es) > 0 {
      var j :| 0 <= j < |es| && es[j].key == Index(ArraySize(es) - 1);
      assert es[j] in es;
    }
    if ArraySize(es) == n {
      var j :| 0 <= j < |es| && es[j].key == Index(n - 1);
      assert es[j] in before;
    }
    if Stored(before, Index(n - 1)) {
      var j :| 0 <= j < |before| && before[j].key == Index(n - 1);
      assert before[j] in es;
      SizeIs(es, n);
    }
  }

  lemma SameBelow(before: seq<Entry>, es: seq<Entry>, n: nat, i: nat)
    requires Sorted(before) && IndexKeys(before) && Sorted(es) && IndexKeys(es) && i < n <= ArraySize(before)
    requires forall e :: e in es <==> e in before && !(n <= e.key.i < ArraySize(before))
    ensures Get(es, Index(i)) == Get(before, Index(i))
    ensures i >= ArraySize(es) ==> Get(before, Index(i)) == NULL_VALUE
  {
    if Stored(before, Index(i)) {
      var j :| 0 <= j < |before| && before[j].key == Index(i);
      assert before[j] in es;
      GetOfMember(before, before[j]);
      GetOfMember(es, before[j]);
      StoredBelowSize(es);
    } else {
      GetOfMissing(before, Index(i));
      forall j | 0 <= j < |es| ensures es[j].key != Index(i) { assert es[j] in before; }
      GetOfMissing(es, Index(i));
    }
  }

  /** The assertion of resize does fail: indices 0 and 2 stored, then shrunk to 2, which erases index 2 only. */
  lemma ResizeAssertionFails()
    ensures var before := Put(Put([], Index(0), NULL_VALUE), Index(2), NULL_VALUE);
            var after := Erased(before, Index(2));
            ArraySize(before) == 3 && after == [Entry(Index(0), NULL_VALUE)] && ArraySize(after) == 1 != 2
  {
    var one := [Entry(Index(0), NULL_VALUE)];
    assert Put([], Index(0), NULL_VALUE) == one && one[1..] == [];
    var before := Put(one, Index(2), NULL_VALUE);
    assert Put([], Index(2), NULL_VALUE) == [Entry(Index(2), NULL_VALUE)] && KeyLess(Index(0), Index(2));
    assert before == [Entry(Index(0), NULL_VALUE), Entry(Index(2), NULL_VALUE)];
    assert before[1..] == [Entry(Index(2), NULL_VALUE)] && before[1..][1..] == [];
  }
}
