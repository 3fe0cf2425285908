/** The other direction of the round trip: whatever document a value was read from, printing that
    value and reading it again changes nothing. */
module JsonReprint {
  import opened JsonValue
  import opened Decimals
  import opened JsonText
  import opened JsonGrammar
  import opened JsonLayout
  import opened JsonWriters

  /** The shape of every value a parse returns: dense arrays, members in order under NUL-free names,
      integers tagged as decodeNumber does. */
  ghost predicate AsRead(v: Value)
    decreases v
  {
    match v.data
    case Int(i) => -MIN_LARGEST_INT_MAGNITUDE <= i <= MAX_INT
    case UInt(u) => MAX_INT < u <= MAX_LARGEST_UINT
    case Str(s) => NulFree(s)
    case Array(es) => AsReadElements(es)
    case Object(es) => AsReadMembers(es)
    case _ => true
  }

  ghost predicate AsReadElements(es: seq<Entry>)
    decreases es
  {
    forall i :: 0 <= i < |es| ==> es[i].key == Index(i) && (assert es[i].val < es[i]; AsRead(es[i].val))
  }

  ghost predicate AsReadMembers(es: seq<Entry>)
    decreases es
  {
    Sorted(es) && forall i :: 0 <= i < |es| ==>
      es[i].key.Name? && NulFree(es[i].key.s) && (assert es[i].val < es[i]; AsRead(es[i].val))
  }

  /** No reals, and not the one integer whose negation overflows. */
  ghost predicate Printable(v: Value)
    decreases v
  {
    match v.data
    case Real(_) => false
    case Int(i) => i != -MIN_LARGEST_INT_MAGNITUDE
    case Array(es) => forall i :: 0 <= i < |es| ==> (assert es[i].val < es[i]; Printable(es[i].val))
    case Object(es) => forall i :: 0 <= i < |es| ==> (assert es[i].val < es[i]; Printable(es[i].val))
    case _ => true
  }

  lemma {:induction false} AccumulateBound(s: string, max: nat, value: nat)
    requires value <= max
    ensures var r := Accumulate(s, max, value); r.Exact? ==> r.n <= max
  {
    if s != [] && IsDigit(s[0]) {
      var digit := DigitValue(s[0]);
      if !(value >= max / 10 && (value > max / 10 || |s| != 1 || digit > max % 10)) {
        AccumulateBound(s[1..], max, value * 10 + digit);
      }
    }
  }

  lemma NumberAsRead(scan: string -> bool, t: string, start: nat, limit: nat)
    requires t != []
    ensures var r := DecodeNumber(scan, t); r.Decoded? ==> AsRead(Value(r.d, start, limit))
  {
    var negative := t[0] == '-';
    AccumulateBound(if negative then t[1..] else t, IntegerLimit(negative), 0);
  }

  lemma {:induction false} ParsedAsRead(scan: string -> bool, doc: string, p: nat, cur: Value)
    requires p <= |doc| && ParseValue(scan, doc, p, cur).ok
    ensures AsRead(ParseValue(scan, doc, p, cur).v)
    decreases |doc| - p, 1
  {
    hide NextToken, ParseMembers, ParseElements, DecodeText, DecodeNumber, AsReadElements, AsReadMembers;
    var t := NextToken(doc, p);
    match t.typ {
      case ObjectBegin =>
        NothingAsRead();
        MembersAsRead(scan, doc, t.limit, [], "");
      case ArrayBegin =>
        NothingAsRead();
        var q := SkipSpaces(doc, t.limit);
        if At(doc, q) != ']' { ElementsAsRead(scan, doc, q, [], 0); }
      case NumberToken =>
        NumberAsRead(scan, TokenText(doc, t), t.start, t.limit);
      case _ =>
    }
  }

  lemma NothingAsRead()
    ensures AsReadElements([]) && AsReadMembers([])
  {
  }

  lemma {:induction false} ElementsAsRead(scan: string -> bool, doc: string, p: nat, es: seq<Entry>, index: nat)
    requires p <= |doc| && AsReadElements(es) && |es| == index
    requires ParseElements(scan, doc, p, es, index).ok
    ensures AsReadElements(ParseElements(scan, doc, p, es, index).entries)
    decreases |doc| - p, 2
  {
    hide NextToken, ParseValue, Put, Get, AsRead;
    var key := Index(index);
    var r := ParseValue(scan, doc, p, Get(es, key));
    ParsedAsRead(scan, doc, p, Get(es, key));
    PutAppends(es, key, r.v);
    var t := NextToken(doc, r.pos);
    if t.typ == ArraySeparator { ElementsAsRead(scan, doc, t.limit, Put(es, key, r.v), index + 1); }
  }

  lemma {:induction false} MembersAsRead(scan: string -> bool, doc: string, p: nat, es: seq<Entry>, name: string)
    requires p <= |doc| && AsReadMembers(es)
    requires ParseMembers(scan, doc, p, es, name).ok
    ensures AsReadMembers(ParseMembers(scan, doc, p, es, name).entries)
    decreases |doc| - p, 0
  {
    hide NextToken, ParseMember, AsReadMembers;
    var t := NextToken(doc, p);
    if t.typ == StringToken {
      MemberAsRead(scan, doc, t, es);
      var m := ParseMember(scan, doc, t, es);
      if m.More? { MembersAsRead(scan, doc, m.pos, m.entries, m.name); }
    }
  }

  lemma {:induction false} MemberAsRead(scan: string -> bool, doc: string, t: Token, es: seq<Entry>)
    requires t.start + 2 <= t.limit <= |doc| && AsReadMembers(es)
    requires var m := ParseMember(scan, doc, t, es); m.Over? ==> m.result.ok
    ensures var m := ParseMember(scan, doc, t, es);
      AsReadMembers(if m.Over? then m.result.entries else m.entries)
    decreases |doc| - t.limit, 3
  {
    hide ReadToken, NextToken, ParseValue, DecodeText, Put, Get, AsReadMembers, Recover;
    var colon := ReadToken(doc, t.limit);
    var key := Name(CString(DecodeString(doc, t).text));
    var r := ParseValue(scan, doc, colon.limit, Get(es, key));
    ParsedAsRead(scan, doc, colon.limit, Get(es, key));
    PutAsRead(es, key, r.v);
  }

  lemma PutAsRead(es: seq<Entry>, k: Key, v: Value)
    requires AsReadMembers(es) && AsRead(v) && k.Name? && NulFree(k.s)
    ensures AsReadMembers(Put(es, k, v))
  {
    hide Put, AsRead;
    PutIsMapUpdate(es, k, v);
    var r := Put(es, k, v);
    forall i | 0 <= i < |r| ensures r[i].key.Name? && NulFree(r[i].key.s) && AsRead(r[i].val) {
      assert r[i] in r;
      if r[i] != Entry(k, v) {
        var x :| 0 <= x < |es| && es[x] == r[i];
      }
    }
  }

  /** On values as read, normalising only drops the offsets. */
  lemma {:induction false} AsReadIsNormal(v: Value)
    requires AsRead(v) && Printable(v)
    ensures Writable(v) && Norm(v) == Strip(v)
    decreases v
  {
    match v.data
    case Array(es) =>
      ElementsNormal(es);
      ArrayParts(v);
    case Object(es) =>
      MembersNormal(es);
      ObjectParts(v);
    case _ =>
  }

  lemma {:induction false} ElementsNormal(es: seq<Entry>)
    requires AsReadElements(es)
    requires forall i :: 0 <= i < |es| ==> Printable(es[i].val)
    ensures Sorted(es) && ArraySize(es) == |es|
    ensures forall i :: 0 <= i < |es| ==> Writable(es[i].val)
    ensures NormElements(es, |es|) == ReoffsetEntries(es, Erase)
    decreases es
  {
    hide AsRead, Printable, Writable, Norm, NormElements, Reoffset, ReoffsetEntries;
    assert Sorted(es);
    forall i | 0 <= i < |es|
      ensures Writable(es[i].val) && NormElements(es, |es|)[i] == ReoffsetEntries(es, Erase)[i]
    {
      assert es[i].val < es[i];
      AsReadIsNormal(es[i].val);
      NormElementsAt(es, |es|, i);
      ReoffsetAt(es, Erase, i);
      GetOfEntry(es, i);
    }
  }

  lemma {:induction false} MembersNormal(es: seq<Entry>)
    requires AsReadMembers(es)
    requires forall i :: 0 <= i < |es| ==> Printable(es[i].val)
    ensures forall i :: 0 <= i < |es| ==> Writable(es[i].val)
    ensures NormMembers(es) == ReoffsetEntries(es, Erase)
    decreases es
  {
    hide AsRead, Printable, Writable, Norm, NormMembers, Reoffset, ReoffsetEntries;
    forall i | 0 <= i < |es|
      ensures Writable(es[i].val) && NormMembers(es)[i] == ReoffsetEntries(es, Erase)[i]
    {
      assert es[i].val < es[i];
      AsReadIsNormal(es[i].val);
      NormMembersAt(es, i);
      ReoffsetAt(es, Erase, i);
    }
  }

  /** Reading a document, printing the value and reading that again gives an equal value, for every
      document at all that parses to a value that can be printed. */
  lemma ReprintStable(scan: string -> bool, doc: string, root: Value, root': Value)
    requires ParseDocument(scan, doc, root).ok && Printable(ParseDocument(scan, doc, root).v)
    ensures var v := ParseDocument(scan, doc, root).v;
      && Writable(v)
      && var r := ParseDocument(scan, Flat(Lexemes(Norm(v))) + "\n", root');
         r.ok && Strip(r.v) == Strip(v)
  {
    hide ParseValue, Norm, Lexemes, Reoffset, AsRead, Printable, Writable;
    ParsedAsRead(scan, doc, 0, root);
    var v := ParseDocument(scan, doc, root).v;
    AsReadIsNormal(v);
    FastRoundTrip(scan, v, root');
  }
}
