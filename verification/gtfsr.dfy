/**
 * Flattening of decoded GTFS-Realtime feed messages into plain nested data
 * (pyptvdata/gtfsr.py).
 *
 * A decoded protocol-buffer value is either a scalar, which has no field
 * schema, or a message: its declared fields in field-number order, each
 * holding a single value (present or not) or a repeated list. `ListFields`
 * reports the fields that are set, and only those reach the result. Scalars
 * are kept as they are, whatever their type `L`.
 */
module GtfsRealtime {
  import opened Wrappers
  import opened Dicts
  import opened Encoding

  datatype Value<L> = Scalar(leaf: L) | Message(slots: seq<Slot<L>>)

  datatype Slot<L> = Slot(name: string, content: Content<L>)

  /** A singular field holds one value and knows whether it was set; a repeated field holds a list. */
  datatype Content<L> = Single(value: Value<L>, present: bool) | Repeated(items: seq<Value<L>>)

  /** The result: a scalar, a list, or a dict from field name to value. */
  datatype Plain<L> = Leaf(leaf: L) | List(items: seq<Plain<L>>) | Object(entries: Entries<string, Plain<L>>)

  /** The top-level feed message: a header and the repeated `entity` field. */
  datatype FeedMessage<L> = FeedMessage(header: Value<L>, entity: seq<Value<L>>)

  datatype DecodeError = DecodeError(reason: string)

  /** A field is reported when a singular one was set or a repeated one is non-empty. */
  predicate Reported<L>(s: Slot<L>) {
    match s.content
    case Single(_, present) => present
    case Repeated(items) => items != []
  }

  function Names<L>(slots: seq<Slot<L>>): (ns: seq<string>)
    ensures |ns| == |slots| && forall i :: 0 <= i < |slots| ==> ns[i] == slots[i].name
  {
    seq(|slots|, i requires 0 <= i < |slots| => slots[i].name)
  }

  /** `message.ListFields()`: the set fields, in field-number order (the order of the slots). */
  function ListFields<L>(slots: seq<Slot<L>>): (fs: seq<Slot<L>>)
    ensures forall f :: f in fs ==> f in slots && Reported(f)
    ensures forall s :: s in slots && Reported(s) ==> s in fs
  {
    if slots == [] then []
    else (if Reported(slots[0]) then [slots[0]] else []) + ListFields(slots[1..])
  }

  /**
   * `ListFields` keeps order and multiplicity: a single slot is listed once if
   * it is set and dropped otherwise, and the fields of two runs of slots come
   * one run after the other. Together these fix the result for every message.
   */
  lemma {:induction false} ListFieldsOrder<L>(a: seq<Slot<L>>, b: seq<Slot<L>>, s: Slot<L>)
    ensures ListFields([s]) == if Reported(s) then [s] else []
    ensures ListFields(a + b) == ListFields(a) + ListFields(b)
    decreases |a|
  {
    assert [s][1..] == [];
    if a == [] {
      assert a + b == b;
    } else {
      assert (a + b)[0] == a[0];
      assert (a + b)[1..] == a[1..] + b;
      ListFieldsOrder(a[1..], b, s);
    }
  }

  /** `parse_gtfs_r`: a scalar comes back unchanged, a message becomes a dict. */
  function Flatten<L>(v: Value<L>): (r: Plain<L>)
    ensures r.Leaf? <==> v.Scalar?
    ensures v.Scalar? ==> r.leaf == v.leaf
    decreases v, 1
  {
    match v
    case Scalar(x) => Leaf(x)
    case Message(_) => Object(AssignAll([], FieldPairs(v)))
  }

  /** Each reported field of message `m` with its flattened value, in order. */
  function FieldPairs<L>(m: Value<L>): (ps: Entries<string, Plain<L>>)
    requires m.Message?
    ensures Keys(ps) == Names(ListFields(m.slots))
    decreases m, 0
  {
    var fs := ListFields(m.slots);
    seq(|fs|, i requires 0 <= i < |fs| =>
      assert fs[i] in m.slots;
      (fs[i].name, FlattenContent(fs[i].content)))
  }

  /** A repeated field becomes the list of its flattened items, a singular field the flattening of its value. */
  function FlattenContent<L>(c: Content<L>): (r: Plain<L>)
    ensures c.Single? ==> r == Flatten(c.value)
    ensures c.Repeated? ==> r.List? && |r.items| == |c.items|
    ensures c.Repeated? ==> forall i :: 0 <= i < |c.items| ==> r.items[i] == Flatten(c.items[i])
    decreases c, 2
  {
    match c
    case Single(x, _) => Flatten(x)
    case Repeated(items) => List(seq(|items|, i requires 0 <= i < |items| => Flatten(items[i])))
  }

  /** Field names of a message are distinct; so are those of its reported fields. */
  lemma {:induction false} ListFieldsDistinct<L>(slots: seq<Slot<L>>)
    requires Distinct(Names(slots))
    ensures Distinct(Names(ListFields(slots)))
  {
    if slots != [] {
      var tail := slots[1..];
      assert Names(tail) == Names(slots)[1..];
      ListFieldsDistinct(tail);
      var rest := ListFields(tail);
      if Reported(slots[0]) {
        assert slots[0].name !in Names(rest) by {
          forall k | 0 <= k < |rest| ensures rest[k].name != slots[0].name {
            assert rest[k] in tail;
            var j :| 0 <= j < |tail| && tail[j] == rest[k];
            assert Names(slots)[j + 1] == rest[k].name;
          }
        }
        assert Names(ListFields(slots)) == [slots[0].name] + Names(rest);
      } else {
        assert ListFields(slots) == rest;
      }
    }
  }

  /**
   * With distinct field names the dict holds exactly the reported fields, in
   * field order, each mapped to the flattening of what it holds.
   */
  lemma FlattenMessageFields<L>(slots: seq<Slot<L>>)
    requires Distinct(Names(slots))
    ensures var r := Flatten(Message(slots)); var fs := ListFields(slots);
      && r.Object?
      && Keys(r.entries) == Names(fs)
      && forall i :: 0 <= i < |fs| ==> r.entries[i].1 == FlattenContent(fs[i].content)
  {
    var m := Message(slots);
    ListFieldsDistinct(slots);
    var empty: Entries<string, Plain<L>> := [];
    assert Keys(empty) + Keys(FieldPairs(m)) == Keys(FieldPairs(m));
    AssignAllFresh([], FieldPairs(m));
  }

  /**
   * For any message, a name is a key of the result exactly when some reported
   * field carries it: fields that are not set never appear, not even with a
   * default value.
   */
  lemma FlattenKeySet<L>(slots: seq<Slot<L>>, n: string)
    ensures var r := Flatten(Message(slots));
      r.Object? && (n in Keys(r.entries) <==> exists j :: 0 <= j < |slots| && slots[j].name == n && Reported(slots[j]))
  {
    var m := Message(slots);
    var fs := ListFields(slots);
    var empty: Entries<string, Plain<L>> := [];
    AssignAllKeys(empty, FieldPairs(m), n);
    assert n in Keys(Flatten(m).entries) <==> n in Names(fs);
    if j :| 0 <= j < |slots| && slots[j].name == n && Reported(slots[j]) {
      assert slots[j] in fs;
      var i :| 0 <= i < |fs| && fs[i] == slots[j];
      assert Names(fs)[i] == n;
    }
    if n in Names(fs) {
      var i :| 0 <= i < |fs| && Names(fs)[i] == n;
      assert fs[i] in slots;
      var j :| 0 <= j < |slots| && slots[j] == fs[i];
      assert slots[j].name == n && Reported(slots[j]);
    }
  }

  /**
   * Looking up a reported field by name gives the flattening of its content:
   * for a repeated field a list as long as the field, item by item.
   */
  lemma FlattenFieldLookup<L>(slots: seq<Slot<L>>, j: nat)
    requires Distinct(Names(slots)) && j < |slots| && Reported(slots[j])
    ensures var r := Flatten(Message(slots));
      r.Object? && Get(r.entries, slots[j].name) == Some(FlattenContent(slots[j].content))
  {
    var fs := ListFields(slots);
    var r := Flatten(Message(slots));
    FlattenMessageFields(slots);
    ListFieldsDistinct(slots);
    assert slots[j] in fs;
    var i :| 0 <= i < |fs| && fs[i] == slots[j];
    assert Distinct(Keys(r.entries));
    GetAt(r.entries, i);
  }

  /** A message whose fields are all set scalars flattens to exactly its name-to-value dict. */
  lemma FlattenAllLeaves<L>(slots: seq<Slot<L>>)
    requires Distinct(Names(slots))
    requires forall j :: 0 <= j < |slots| ==> slots[j].content.Single? && slots[j].content.present && slots[j].content.value.Scalar?
    ensures Flatten(Message(slots)) ==
      Object(seq(|slots|, j requires 0 <= j < |slots| => (slots[j].name, Leaf(slots[j].content.value.leaf))))
  {
    assert ListFields(slots) == slots by {
      ListFieldsAll(slots);
    }
    FlattenMessageFields(slots);
  }

  lemma {:induction false} ListFieldsAll<L>(slots: seq<Slot<L>>)
    requires forall j :: 0 <= j < |slots| ==> Reported(slots[j])
    ensures ListFields(slots) == slots
  {
    if slots != [] {
      ListFieldsAll(slots[1..]);
      assert slots == [slots[0]] + slots[1..];
    }
  }

  /** `parse_gtfs_r`, filling the dict field by field as the source does. */
  method ParseGtfsR<L>(v: Value<L>) returns (r: Plain<L>)
    ensures r == Flatten(v)
    decreases v
  {
    match v
    case Scalar(x) =>
      r := Leaf(x);
    case Message(slots) =>
      var fields := ListFields(slots);
      ghost var pairs := FieldPairs(v);
      var entityDict: Entries<string, Plain<L>> := [];
      for k := 0 to |fields|
        invariant entityDict == AssignAll([], pairs[..k])
      {
        var field := fields[k];
        assert field in slots;
        var fieldValue := ParseField(field.content);
        assert pairs[..k + 1][..k] == pairs[..k];
        entityDict := Assign(entityDict, field.name, fieldValue);
      }
      assert pairs[..|fields|] == pairs;
      r := Object(entityDict);
  }

  /** The value of one reported field: each item of a repeated field in turn, or the single value. */
  method ParseField<L>(c: Content<L>) returns (r: Plain<L>)
    ensures r == FlattenContent(c)
    decreases c
  {
    match c
    case Repeated(items) =>
      var values: seq<Plain<L>> := [];
      for i := 0 to |items|
        invariant |values| == i
        invariant forall p :: 0 <= p < i ==> values[p] == Flatten(items[p])
      {
        var item := ParseGtfsR(items[i]);
        values := values + [item];
      }
      r := List(values);
    case Single(value, _) =>
      r := ParseGtfsR(value);
  }

  /** `parse_gtfs_realtime_feed`: one flattened entity per `feed.entity`, in order. */
  method ParseRealtimeFeed<L>(feed: FeedMessage<L>) returns (r: seq<Plain<L>>)
    ensures |r| == |feed.entity|
    ensures forall i :: 0 <= i < |r| ==> r[i] == Flatten(feed.entity[i])
  {
    r := [];
    for i := 0 to |feed.entity|
      invariant |r| == i
      invariant forall p :: 0 <= p < i ==> r[p] == Flatten(feed.entity[p])
    {
      var e := ParseGtfsR(feed.entity[i]);
      r := r + [e];
    }
  }

  /**
   * `parse_gtfs_r_binary`: decode, then flatten. The protocol-buffer decoder
   * is a parameter; the call fails exactly when decoding fails, with its error.
   */
  method ParseGtfsRBinary<L>(feedData: seq<byte>, decode: seq<byte> -> Result<FeedMessage<L>, DecodeError>)
    returns (r: Result<seq<Plain<L>>, DecodeError>)
    ensures r.Failure? <==> decode(feedData).Failure?
    ensures r.Failure? ==> r.error == decode(feedData).error
    ensures r.Success? ==> |r.value| == |decode(feedData).value.entity|
    ensures r.Success? ==> forall i :: 0 <= i < |r.value| ==> r.value[i] == Flatten(decode(feedData).value.entity[i])
  {
    var decoded := decode(feedData);
    if decoded.Failure? {
      return Failure(decoded.error);
    }
    var entities := ParseRealtimeFeed(decoded.value);
    return Success(entities);
  }
}
