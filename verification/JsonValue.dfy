/** Json::Value: the tree a parse builds and a writer prints. Every value carries the document
    offsets the reader recorded for it. Arrays and objects are both an ordered map from keys to
    values, kept as the sequence of its entries in key order. */
module JsonValue {

  /** CZString: an array index or a member name. */
  datatype Key = Index(i: nat) | Name(s: string)

  datatype Entry = Entry(key: Key, val: Value)

  datatype Value = Value(data: Data, start: nat, limit: nat)

  datatype Data =
    | Null
    | Int(i: int)
    | UInt(u: nat)
    | Real(text: string)  // a double, known only by the text it was scanned from
    | Str(s: string)
    | Bool(b: bool)
    | Array(elems: seq<Entry>)
    | Object(members: seq<Entry>)

  const MAX_INT := 0x7FFF_FFFF
  const MAX_LARGEST_UINT := 0xFFFF_FFFF_FFFF_FFFF
  const MAX_LARGEST_INT := 0x7FFF_FFFF_FFFF_FFFF
  const MIN_LARGEST_INT_MAGNITUDE := 0x8000_0000_0000_0000

  const NULL_VALUE := Value(Null, 0, 0)

  /** A value that was just constructed or assigned: its offsets are zero. */
  function Plain(d: Data): Value { Value(d, 0, 0) }

  // ---------- key order ----------

  /** strcmp(a, b) < 0 on the characters before the terminating NUL. */
  predicate TextLess(a: string, b: string)
  {
    if b == [] then false
    else if a == [] then true
    else a[0] < b[0] || (a[0] == b[0] && TextLess(a[1..], b[1..]))
  }

  predicate KeyLess(a: Key, b: Key) {
    match (a, b)
    case (Index(i), Index(j)) => i < j
    case (Name(s), Name(t)) => TextLess(s, t)
    case (Index(_), Name(_)) => true
    case (Name(_), Index(_)) => false
  }

  ghost predicate Sorted(es: seq<Entry>) {
    forall i, j :: 0 <= i < j < |es| ==> KeyLess(es[i].key, es[j].key)
  }

  /** b goes beyond a at position k, where they part: a ends there or has the smaller character. */
  predicate PartsBelow(a: string, b: string, k: nat) {
    k <= |a| && k < |b| && a[..k] == b[..k] && (k == |a| || a[k] < b[k])
  }

  /** The order of texts is decided where they first differ. */
  lemma {:induction false} TextLessExactly(a: string, b: string)
    ensures TextLess(a, b) <==> exists k: nat :: PartsBelow(a, b, k)
  {
    if b != [] && a != [] {
      TextLessExactly(a[1..], b[1..]);
      if TextLess(a, b) {
        if a[0] < b[0] {
          assert PartsBelow(a, b, 0);
        } else {
          var k: nat :| PartsBelow(a[1..], b[1..], k);
          assert a[..k + 1] == [a[0]] + a[1..][..k] && b[..k + 1] == [b[0]] + b[1..][..k];
          assert PartsBelow(a, b, k + 1);
        }
      }
      if k: nat :| PartsBelow(a, b, k) {
        if k > 0 {
          assert a[0] == a[..k][0] == b[..k][0] == b[0];
          assert a[1..][..k - 1] == a[..k][1..] == b[..k][1..] == b[1..][..k - 1];
          assert PartsBelow(a[1..], b[1..], k - 1);
        }
      }
    } else if b != [] {
      assert PartsBelow(a, b, 0);
    }
  }

  lemma {:induction false} TextLessTotal(a: string, b: string)
    ensures TextLess(a, b) || TextLess(b, a) || a == b
    ensures !(TextLess(a, b) && TextLess(b, a))
    ensures a == b ==> !TextLess(a, b)
  {
    if a != [] && b != [] {
      TextLessTotal(a[1..], b[1..]);
      if a[0] == b[0] && a[1..] == b[1..] {
        assert a == [a[0]] + a[1..] && b == [b[0]] + b[1..];
      }
    }
  }

  lemma {:induction false} TextLessTransitive(a: string, b: string, c: string)
    requires TextLess(a, b) && TextLess(b, c)
    ensures TextLess(a, c)
  {
    if a != [] && a[0] == b[0] && b[0] == c[0] {
      TextLessTransitive(a[1..], b[1..], c[1..]);
    }
  }

  /** Keys are strictly totally ordered. */
  lemma KeyLessTotal(a: Key, b: Key)
    ensures KeyLess(a, b) || KeyLess(b, a) || a == b
    ensures !(KeyLess(a, b) && KeyLess(b, a))
    ensures a == b ==> !KeyLess(a, b)
  {
    if a.Name? && b.Name? { TextLessTotal(a.s, b.s); }
  }

  /** Indices are in their order, names in that of their first difference. */
  lemma KeysDecide(a: Key, b: Key)
    ensures a.Index? && b.Index? ==> (KeyLess(a, b) <==> a.i < b.i)
    ensures a.Name? && b.Name? ==> (KeyLess(a, b) <==> exists k: nat :: PartsBelow(a.s, b.s, k))
  {
    if a.Name? && b.Name? { TextLessExactly(a.s, b.s); }
  }

  lemma KeyLessTransitive(a: Key, b: Key, c: Key)
    requires KeyLess(a, b) && KeyLess(b, c)
    ensures KeyLess(a, c)
  {
    if a.Name? && b.Name? && c.Name? { TextLessTransitive(a.s, b.s, c.s); }
  }

  // ---------- the ordered map ----------

  /** The value stored under k, or null: Value::operator[] const. */
  function Get(es: seq<Entry>, k: Key): Value {
    if es == [] then NULL_VALUE
    else if es[0].key == k then es[0].val
    else Get(es[1..], k)
  }

  ghost predicate Stored(es: seq<Entry>, k: Key) {
    exists i :: 0 <= i < |es| && es[i].key == k
  }

  /** Stores v under k: lower_bound, then overwrite or insert there. */
  function Put(es: seq<Entry>, k: Key, v: Value): (r: seq<Entry>)
    ensures r != []
  {
    if es == [] then [Entry(k, v)]
    else if es[0].key == k then [Entry(k, v)] + es[1..]
    else if KeyLess(es[0].key, k) then [es[0]] + Put(es[1..], k, v)
    else [Entry(k, v)] + es
  }

  lemma {:induction false} PutAppends(es: seq<Entry>, k: Key, v: Value)
    requires forall i :: 0 <= i < |es| ==> KeyLess(es[i].key, k)
    ensures Put(es, k, v) == es + [Entry(k, v)]
    ensures Get(es, k) == NULL_VALUE
  {
    if es != [] {
      assert KeyLess(es[0].key, k);
      KeyLessTotal(es[0].key, k);
      forall i | 0 <= i < |es[1..]| ensures KeyLess(es[1..][i].key, k) { assert es[1..][i] == es[i + 1]; }
      PutAppends(es[1..], k, v);
      assert es == [es[0]] + es[1..];
    }
  }

  /** Put updates exactly one key and keeps the entries sorted. */
  lemma {:induction false} PutIsMapUpdate(es: seq<Entry>, k: Key, v: Value)
    requires Sorted(es)
    ensures var r := Put(es, k, v);
      && Sorted(r)
      && Get(r, k) == v
      && (forall k' :: k' != k ==> Get(r, k') == Get(es, k'))
      && (forall e :: e in r ==> e == Entry(k, v) || (e in es && e.key != k))
      && (forall e :: e in es && e.key != k ==> e in r)
      && Entry(k, v) in r
  {
    PutMembers(es, k, v);
    PutSorted(es, k, v);
    PutGet(es, k, v);
    hide Put, Get, Sorted;
  }

  lemma {:induction false} PutMembers(es: seq<Entry>, k: Key, v: Value)
    requires Sorted(es)
    ensures var r := Put(es, k, v);
      && (forall e :: e in r ==> e == Entry(k, v) || (e in es && e.key != k))
      && (forall e :: e in es && e.key != k ==> e in r)
      && Entry(k, v) in r
  {
    var r := Put(es, k, v);
    if es == [] {
    } else if es[0].key == k {
      forall i | 0 < i < |es| ensures es[i].key != k { KeyLessTotal(es[0].key, es[i].key); }
      assert r[1..] == es[1..];
    } else {
      KeyLessTotal(es[0].key, k);
      if KeyLess(es[0].key, k) {
        PutMembers(es[1..], k, v);
        assert r[1..] == Put(es[1..], k, v);
        assert forall e :: e in es ==> e == es[0] || e in es[1..];
        assert forall e :: e in r ==> e == r[0] || e in r[1..];
      } else {
        forall j | 0 <= j < |es| ensures es[j].key != k {
          if j > 0 { KeyLessTransitive(k, es[0].key, es[j].key); }
          KeyLessTotal(k, es[j].key);
        }
        assert r[1..] == es;
      }
    }
  }

  lemma {:induction false} PutSorted(es: seq<Entry>, k: Key, v: Value)
    requires Sorted(es)
    ensures Sorted(Put(es, k, v))
  {
    var r := Put(es, k, v);
    if es != [] && es[0].key != k {
      KeyLessTotal(es[0].key, k);
      if KeyLess(es[0].key, k) {
        PutSorted(es[1..], k, v);
        PutMembers(es[1..], k, v);
        assert r[1..] == Put(es[1..], k, v);
        hide Put;
        forall j | 0 < j < |r| ensures KeyLess(r[0].key, r[j].key) {
          assert r[j] in r[1..];
          if r[j] != Entry(k, v) {
            var m :| 0 <= m < |es[1..]| && es[1..][m] == r[j];
            assert es[m + 1] == r[j];
          }
        }
        SortedCons(r);
      } else {
        forall j | 0 <= j < |es| ensures KeyLess(k, es[j].key) {
          if j > 0 { KeyLessTransitive(k, es[0].key, es[j].key); }
        }
        assert r[1..] == es;
        SortedCons(r);
      }
    }
  }

  lemma {:induction false} PutGet(es: seq<Entry>, k: Key, v: Value)
    requires Sorted(es)
    ensures Get(Put(es, k, v), k) == v
    ensures forall k' :: k' != k ==> Get(Put(es, k, v), k') == Get(es, k')
  {
    var r := Put(es, k, v);
    if es == [] {
    } else if es[0].key == k {
      assert r[1..] == es[1..];
    } else {
      KeyLessTotal(es[0].key, k);
      if KeyLess(es[0].key, k) {
        PutGet(es[1..], k, v);
        assert r[1..] == Put(es[1..], k, v);
      } else {
        assert r[1..] == es;
      }
    }
  }

  lemma SortedCons(r: seq<Entry>)
    requires r != [] && Sorted(r[1..])
    requires forall j :: 0 < j < |r| ==> KeyLess(r[0].key, r[j].key)
    ensures Sorted(r)
  {
    forall i, j | 0 <= i < j < |r| ensures KeyLess(r[i].key, r[j].key) {
      if i > 0 { assert r[1..][i - 1] == r[i] && r[1..][j - 1] == r[j]; }
    }
  }

  lemma {:induction false} GetOfEntry(es: seq<Entry>, i: nat)
    requires Sorted(es) && i < |es|
    ensures Get(es, es[i].key) == es[i].val
  {
    if i > 0 {
      KeyLessTotal(es[0].key, es[i].key);
      GetOfEntry(es[1..], i - 1);
    }
  }

  lemma {:induction false} GetOfMissing(es: seq<Entry>, k: Key)
    requires !Stored(es, k)
    ensures Get(es, k) == Value(Null, 0, 0)
  {
    if es != [] {
      assert es[0].key != k;
      forall i | 0 <= i < |es[1..]| ensures es[1..][i].key != k { assert es[1..][i] == es[i + 1]; }
      GetOfMissing(es[1..], k);
    }
  }

  /** Value::size() of an array: highest stored index plus one. */
  function ArraySize(es: seq<Entry>): nat {
    if es != [] && es[|es| - 1].key.Index? then es[|es| - 1].key.i + 1 else 0
  }

  // ---------- offsets ----------

  /** A change of all offsets: set them to zero, or count from a characters earlier. */
  datatype Move = Erase | Add(a: nat) {
    function Of(x: nat): nat { if Add? then x + a else 0 }
  }

  function Reoffset(v: Value, m: Move): Value
    decreases v
  {
    var d := match v.data
      case Array(es) => Array(ReoffsetEntries(es, m))
      case Object(es) => Object(ReoffsetEntries(es, m))
      case d => d;
    Value(d, m.Of(v.start), m.Of(v.limit))
  }

  function ReoffsetEntries(es: seq<Entry>, m: Move): (r: seq<Entry>)
    ensures |r| == |es|
    decreases es
  {
    if es == [] then []
    else
      assert es[0].val < es[0];
      [Entry(es[0].key, Reoffset(es[0].val, m))] + ReoffsetEntries(es[1..], m)
  }

  /** What operator== sees of a value: everything but the offsets. */
  function Strip(v: Value): Value { Reoffset(v, Erase) }

  /** v as it reads in a document that has a more characters in front. */
  function Shift(v: Value, a: nat): Value { Reoffset(v, Add(a)) }

  lemma {:induction false} ReoffsetAt(es: seq<Entry>, m: Move, i: nat)
    requires i < |es|
    ensures ReoffsetEntries(es, m)[i] == Entry(es[i].key, Reoffset(es[i].val, m))
  {
    if i > 0 { ReoffsetAt(es[1..], m, i - 1); }
  }

  lemma {:induction false} ReoffsetPut(es: seq<Entry>, k: Key, v: Value, m: Move)
    ensures ReoffsetEntries(Put(es, k, v), m) == Put(ReoffsetEntries(es, m), k, Reoffset(v, m))
  {
    var r := Put(es, k, v);
    if es != [] {
      if es[0].key == k {
        assert r[1..] == es[1..];
      } else if KeyLess(es[0].key, k) {
        assert r[1..] == Put(es[1..], k, v);
        ReoffsetPut(es[1..], k, v, m);
        assert ReoffsetEntries(es, m)[1..] == ReoffsetEntries(es[1..], m);
      } else {
        assert r[1..] == es;
      }
    }
  }

  /** Moving a value in its document does not change what operator== sees. */
  lemma {:induction false} StripOfShift(v: Value, a: nat)
    ensures Strip(Shift(v, a)) == Strip(v)
    decreases v
  {
    match v.data
    case Array(es) => StripOfShiftEntries(es, a);
    case Object(es) => StripOfShiftEntries(es, a);
    case _ =>
  }

  lemma {:induction false} StripOfShiftEntries(es: seq<Entry>, a: nat)
    ensures ReoffsetEntries(ReoffsetEntries(es, Add(a)), Erase) == ReoffsetEntries(es, Erase)
    decreases es
  {
    if es != [] {
      assert es[0].val < es[0];
      StripOfShift(es[0].val, a);
      StripOfShiftEntries(es[1..], a);
      assert ReoffsetEntries(es, Add(a))[1..] == ReoffsetEntries(es[1..], Add(a));
    }
  }

  // ---------- depth ----------

  /** Nesting depth. */
  function Height(v: Value): nat
    decreases v
  {
    match v.data
    case Array(es) => 1 + EntriesHeight(es)
    case Object(es) => 1 + EntriesHeight(es)
    case _ => 0
  }

  function EntriesHeight(es: seq<Entry>): nat
    decreases es
  {
    if es == [] then 0
    else
      assert es[0].val < es[0];
      var first, rest := Height(es[0].val), EntriesHeight(es[1..]);
      if first > rest then first else rest
  }

  lemma {:induction false} EntryHeight(es: seq<Entry>, i: nat)
    requires i < |es|
    ensures Height(es[i].val) <= EntriesHeight(es)
  {
    if i > 0 { EntryHeight(es[1..], i - 1); }
  }

  lemma {:induction false} GetHeight(es: seq<Entry>, k: Key)
    ensures Height(Get(es, k)) <= EntriesHeight(es)
  {
    if es != [] && es[0].key != k {
      GetHeight(es[1..], k);
    }
  }
}
