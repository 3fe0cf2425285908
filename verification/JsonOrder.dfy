/** The order and equality of Json::Value: by type, then by size, then lexicographically over the
    map's pairs, recursively. On values without reals it is a strict total order. */
module JsonOrder {
  import opened JsonValue

  /** The numbering of enum ValueType. */
  function TypeOf(v: Value): nat {
    match v.data
    case Null => 0
    case Int(_) => 1
    case UInt(_) => 2
    case Real(_) => 3
    case Str(_) => 4
    case Bool(_) => 5
    case Array(_) => 6
    case Object(_) => 7
  }

  ghost predicate NoReals(v: Value)
    decreases v
  {
    match v.data
    case Real(_) => false
    case Array(es) => NoRealEntries(es)
    case Object(es) => NoRealEntries(es)
    case _ => true
  }

  ghost predicate NoRealEntries(es: seq<Entry>)
    decreases es
  {
    es != [] ==> (assert es[0].val < es[0]; NoReals(es[0].val)) && NoRealEntries(es[1..])
  }

  /** operator<; two reals, whose numbers are not modelled, are never in order. */
  predicate Less(a: Value, b: Value)
    decreases Height(a) + Height(b), 2
  {
    if TypeOf(a) != TypeOf(b) then TypeOf(a) < TypeOf(b)
    else
      match a.data
      case Null => false
      case Int(i) => i < b.data.i
      case UInt(u) => u < b.data.u
      case Real(_) => false
      case Str(s) => TextLess(s, b.data.s)
      case Bool(x) => !x && b.data.b
      case Array(es) => if |es| != |b.data.elems| then |es| < |b.data.elems| else MapLess(es, b.data.elems)
      case Object(es) => if |es| != |b.data.members| then |es| < |b.data.members| else MapLess(es, b.data.members)
  }

  /** std::map operator<: the first differing pair decides, else the shorter map. */
  predicate MapLess(es: seq<Entry>, fs: seq<Entry>)
    decreases EntriesHeight(es) + EntriesHeight(fs), 4, |es|
  {
    if fs == [] then false
    else if es == [] then true
    else if PairLess(es, fs) then true
    else if PairLess(fs, es) then false
    else MapLess(es[1..], fs[1..])
  }

  /** std::pair operator<, on the first pairs of two maps. */
  predicate PairLess(es: seq<Entry>, fs: seq<Entry>)
    requires es != [] && fs != []
    decreases EntriesHeight(es) + EntriesHeight(fs), 3
  {
    EntryHeight(es, 0);
    EntryHeight(fs, 0);
    KeyLess(es[0].key, fs[0].key) || (!KeyLess(fs[0].key, es[0].key) && Less(es[0].val, fs[0].val))
  }

  /** Value::compare */
  function Compare(a: Value, b: Value): int {
    if Less(a, b) then -1 else if Less(b, a) then 1 else 0
  }

  /** operator== */
  predicate Equal(a: Value, b: Value)
    decreases a
  {
    TypeOf(a) == TypeOf(b) &&
    match a.data
    case Null => true
    case Int(i) => i == b.data.i
    case UInt(u) => u == b.data.u
    case Real(t) => t == b.data.text
    case Str(s) => s == b.data.s
    case Bool(x) => x == b.data.b
    case Array(es) => MapEqual(es, b.data.elems)
    case Object(es) => MapEqual(es, b.data.members)
  }

  predicate MapEqual(es: seq<Entry>, fs: seq<Entry>)
    decreases es
  {
    |es| == |fs| &&
    (es != [] ==>
       (assert es[0].val < es[0]; es[0].key == fs[0].key && Equal(es[0].val, fs[0].val)) && MapEqual(es[1..], fs[1..]))
  }

  // ---------- what decides the order ----------

  /** Values of different types are in the order null, signed, unsigned, real, string, boolean, array, object,
      whatever they hold. */
  lemma TypesDecide(vs: seq<Value>)
    requires |vs| == 8 && vs[0].data.Null? && vs[1].data.Int? && vs[2].data.UInt? && vs[3].data.Real?
    requires vs[4].data.Str? && vs[5].data.Bool? && vs[6].data.Array? && vs[7].data.Object?
    ensures forall i, j | 0 <= i < 8 && 0 <= j < 8 && i != j :: Less(vs[i], vs[j]) <==> i < j
  {
  }

  /** Scalars of one type are in the order of what they hold; texts in that of their first difference. */
  lemma ScalarsDecide(a: Value, b: Value)
    ensures a.data.Null? && b.data.Null? ==> !Less(a, b)
    ensures a.data.Int? && b.data.Int? ==> (Less(a, b) <==> a.data.i < b.data.i)
    ensures a.data.UInt? && b.data.UInt? ==> (Less(a, b) <==> a.data.u < b.data.u)
    ensures a.data.Bool? && b.data.Bool? ==> (Less(a, b) <==> (a.data.b, b.data.b) == (false, true))
    ensures a.data.Str? && b.data.Str? ==> (Less(a, b) <==> exists k: nat :: PartsBelow(a.data.s, b.data.s, k))
  {
    if a.data.Str? && b.data.Str? { TextLessExactly(a.data.s, b.data.s); }
  }

  /** Neither pair comes before the other. */
  predicate Tied(x: Entry, y: Entry) { x.key == y.key && !Less(x.val, y.val) && !Less(y.val, x.val) }

  /** The maps are tied before entry k; there the first ends, or its key is smaller, or the keys are the same and its
      value is smaller. */
  ghost predicate EntryDecides(es: seq<Entry>, fs: seq<Entry>, k: nat) {
    && k <= |es| && k < |fs| && (forall j | 0 <= j < k :: Tied(es[j], fs[j]))
    && (k == |es| || KeyLess(es[k].key, fs[k].key) || (es[k].key == fs[k].key && Less(es[k].val, fs[k].val)))
  }

  lemma PairsTied(es: seq<Entry>, fs: seq<Entry>)
    requires es != [] && fs != [] && !PairLess(es, fs) && !PairLess(fs, es)
    ensures Tied(es[0], fs[0])
  {
    hide KeyLess;
    KeyLessTotal(es[0].key, fs[0].key);
  }

  lemma {:induction false} FirstEntryDecides(es: seq<Entry>, fs: seq<Entry>)
    ensures MapLess(es, fs) <==> exists k: nat :: EntryDecides(es, fs, k)
  {
    hide KeyLess;
    if fs != [] && es != [] {
      KeyLessTotal(es[0].key, fs[0].key);
      FirstEntryDecides(es[1..], fs[1..]);
      if MapLess(es, fs) {
        if PairLess(es, fs) {
          assert EntryDecides(es, fs, 0);
        } else {
          var k: nat :| EntryDecides(es[1..], fs[1..], k);
          PairsTied(es, fs);
          forall j | 0 < j < k + 1 ensures Tied(es[j], fs[j]) {
            assert Tied(es[1..][j - 1], fs[1..][j - 1]);
          }
          assert EntryDecides(es, fs, k + 1);
        }
      }
      if k: nat :| EntryDecides(es, fs, k) {
        if k > 0 {
          assert Tied(es[0], fs[0]);
          assert forall j | 0 <= j < k - 1 :: es[1..][j] == es[j + 1] && fs[1..][j] == fs[j + 1];
          assert EntryDecides(es[1..], fs[1..], k - 1);
        }
      }
    } else if fs != [] {
      assert EntryDecides(es, fs, 0);
    }
  }

  /** Containers of one type are in the order of their sizes, and at equal size in that of their first difference. */
  lemma ContainersDecide(a: Value, b: Value)
    ensures a.data.Array? && b.data.Array? ==>
      var es, fs := a.data.elems, b.data.elems;
      Less(a, b) <==> |es| < |fs| || (|es| == |fs| && exists k: nat :: EntryDecides(es, fs, k))
    ensures a.data.Object? && b.data.Object? ==>
      var es, fs := a.data.members, b.data.members;
      Less(a, b) <==> |es| < |fs| || (|es| == |fs| && exists k: nat :: EntryDecides(es, fs, k))
  {
    hide EntryDecides;
    match (a.data, b.data)
    case (Array(es), Array(fs)) => FirstEntryDecides(es, fs);
    case (Object(es), Object(fs)) => FirstEntryDecides(es, fs);
    case _ =>
  }

  // ---------- equality ----------

  /** operator== sees everything but the offsets. */
  lemma {:induction false} EqualIsStrip(a: Value, b: Value)
    ensures Equal(a, b) <==> Strip(a) == Strip(b)
    decreases a
  {
    match a.data
    case Array(es) => if b.data.Array? { MapEqualIsStrip(es, b.data.elems); }
    case Object(es) => if b.data.Object? { MapEqualIsStrip(es, b.data.members); }
    case _ =>
  }

  lemma {:induction false} MapEqualIsStrip(es: seq<Entry>, fs: seq<Entry>)
    ensures MapEqual(es, fs) <==> ReoffsetEntries(es, Erase) == ReoffsetEntries(fs, Erase)
    decreases es
  {
    if es != [] && fs != [] {
      assert es[0].val < es[0];
      EqualIsStrip(es[0].val, fs[0].val);
      MapEqualIsStrip(es[1..], fs[1..]);
      var x, y := ReoffsetEntries(es, Erase), ReoffsetEntries(fs, Erase);
      assert x == [x[0]] + x[1..] && y == [y[0]] + y[1..];
      assert x[1..] == ReoffsetEntries(es[1..], Erase) && y[1..] == ReoffsetEntries(fs[1..], Erase);
    }
  }

  // ---------- strict total order ----------

  /** Exactly one of a < b, a == b and b < a. */
  ghost predicate OneOf(less: bool, equal: bool, greater: bool) {
    (less || equal || greater) && !(less && equal) && !(less && greater) && !(equal && greater)
  }

  lemma {:induction false} Trichotomy(a: Value, b: Value)
    requires NoReals(a) && NoReals(b)
    ensures OneOf(Less(a, b), Equal(a, b), Less(b, a))
    decreases Height(a) + Height(b), 1
  {
    if TypeOf(a) == TypeOf(b) {
      match a.data
      case Array(es) => MapTrichotomy(es, b.data.elems);
      case Object(es) => MapTrichotomy(es, b.data.members);
      case Str(s) => TextLessTotal(s, b.data.s);
      case _ =>
    }
  }

  lemma {:induction false} MapTrichotomy(es: seq<Entry>, fs: seq<Entry>)
    requires NoRealEntries(es) && NoRealEntries(fs)
    ensures |es| == |fs| ==> OneOf(MapLess(es, fs), MapEqual(es, fs), MapLess(fs, es))
    ensures |es| != |fs| ==> !MapEqual(es, fs)
    decreases EntriesHeight(es) + EntriesHeight(fs), 3, |es|
  {
    if es != [] && fs != [] {
      PairTrichotomy(es, fs);
      MapTrichotomy(es[1..], fs[1..]);
    }
  }

  lemma {:induction false} PairTrichotomy(es: seq<Entry>, fs: seq<Entry>)
    requires es != [] && fs != [] && NoRealEntries(es) && NoRealEntries(fs)
    ensures OneOf(PairLess(es, fs), es[0].key == fs[0].key && Equal(es[0].val, fs[0].val), PairLess(fs, es))
    decreases EntriesHeight(es) + EntriesHeight(fs), 2
  {
    EntryHeight(es, 0);
    EntryHeight(fs, 0);
    KeyLessTotal(es[0].key, fs[0].key);
    Trichotomy(es[0].val, fs[0].val);
  }

  /** Values that compare equal are in the same order to any other. */
  lemma {:induction false} LessOfEqual(a: Value, b: Value, c: Value)
    requires Equal(a, b)
    ensures Less(a, c) == Less(b, c) && Less(c, a) == Less(c, b)
    decreases Height(a) + Height(c), 1
  {
    if TypeOf(a) == TypeOf(c) {
      match a.data
      case Array(es) => MapLessOfEqual(es, b.data.elems, c.data.elems);
      case Object(es) => MapLessOfEqual(es, b.data.members, c.data.members);
      case _ =>
    }
  }

  lemma {:induction false} MapLessOfEqual(es: seq<Entry>, fs: seq<Entry>, gs: seq<Entry>)
    requires MapEqual(es, fs)
    ensures MapLess(es, gs) == MapLess(fs, gs) && MapLess(gs, es) == MapLess(gs, fs)
    decreases EntriesHeight(es) + EntriesHeight(gs), 2, |es|
  {
    if es != [] && gs != [] {
      EntryHeight(es, 0);
      EntryHeight(gs, 0);
      LessOfEqual(es[0].val, fs[0].val, gs[0].val);
      MapLessOfEqual(es[1..], fs[1..], gs[1..]);
    }
  }

  lemma {:induction false} Transitive(a: Value, b: Value, c: Value)
    requires NoReals(a) && NoReals(b) && NoReals(c)
    requires Less(a, b) && Less(b, c)
    ensures Less(a, c)
    decreases Height(a) + Height(b) + Height(c), 1
  {
    if TypeOf(a) == TypeOf(b) == TypeOf(c) {
      match a.data
      case Array(es) =>
        if |es| == |b.data.elems| == |c.data.elems| { MapTransitive(es, b.data.elems, c.data.elems); }
      case Object(es) =>
        if |es| == |b.data.members| == |c.data.members| { MapTransitive(es, b.data.members, c.data.members); }
      case Str(s) => TextLessTransitive(s, b.data.s, c.data.s);
      case _ =>
    }
  }

  lemma {:induction false} MapTransitive(es: seq<Entry>, fs: seq<Entry>, gs: seq<Entry>)
    requires NoRealEntries(es) && NoRealEntries(fs) && NoRealEntries(gs)
    requires |es| == |fs| == |gs| && MapLess(es, fs) && MapLess(fs, gs)
    ensures MapLess(es, gs)
    decreases EntriesHeight(es) + EntriesHeight(fs) + EntriesHeight(gs), 3, |es|
  {
    hide Less, Equal, NoReals;
    PairTrichotomy(es, fs);
    PairTrichotomy(fs, gs);
    PairTrichotomy(es, gs);
    PairTransitive(es, fs, gs);
    if !PairLess(es, fs) && !PairLess(fs, gs) {
      MapTransitive(es[1..], fs[1..], gs[1..]);
    }
  }

  /** First pairs: less or equal, then less or equal, is less unless both are equal. */
  lemma {:induction false} PairTransitive(es: seq<Entry>, fs: seq<Entry>, gs: seq<Entry>)
    requires es != [] && fs != [] && gs != []
    requires NoRealEntries(es) && NoRealEntries(fs) && NoRealEntries(gs)
    ensures !PairLess(fs, es) && !PairLess(gs, fs) ==>
              !PairLess(gs, es) && (PairLess(es, fs) || PairLess(fs, gs) ==> PairLess(es, gs))
    decreases EntriesHeight(es) + EntriesHeight(fs) + EntriesHeight(gs), 2
  {
    EntryHeight(es, 0);
    EntryHeight(fs, 0);
    EntryHeight(gs, 0);
    var e, f, g := es[0], fs[0], gs[0];
    KeyLessTotal(e.key, f.key);
    KeyLessTotal(f.key, g.key);
    KeyLessTotal(e.key, g.key);
    if KeyLess(e.key, f.key) && KeyLess(f.key, g.key) { KeyLessTransitive(e.key, f.key, g.key); }
    Trichotomy(e.val, f.val);
    Trichotomy(f.val, g.val);
    Trichotomy(e.val, g.val);
    if Less(e.val, f.val) && Less(f.val, g.val) { Transitive(e.val, f.val, g.val); }
    if Equal(e.val, f.val) { LessOfEqual(e.val, f.val, g.val); }
    if Equal(f.val, g.val) { LessOfEqual(f.val, g.val, e.val); }
  }

  /** compare is 0 exactly on equal values, and changes sign with its arguments. */
  lemma CompareIsEqual(a: Value, b: Value)
    requires NoReals(a) && NoReals(b)
    ensures Compare(a, b) == 0 <==> Equal(a, b)
    ensures Compare(b, a) == -Compare(a, b)
  {
    hide Less, Equal;
    Trichotomy(a, b);
  }
}
