/** `_compact`: bounded, null-free, clock-free JSON. */
module EvidenceReducer {
  import opened Json

  const MAX_DEPTH := 3
  const MAX_STRING := 400
  const MAX_ITEMS := 60

  const VOLATILE: seq<string> := [
    "generated_at", "updated_at", "started_at", "finished_at", "timestamp", "created_at", "ended_at"]

  predicate Skipped(f: Field) {
    f.key in VOLATILE && IsScalar(f.value)
  }

  /** A scalar under one of the seven clock keys. */
  lemma {:induction false} SkippedExactly(f: Field)
    ensures Skipped(f) <==>
              && f.key in {"generated_at", "updated_at", "started_at", "finished_at", "timestamp", "created_at",
                           "ended_at"}
              && !f.value.Arr? && !f.value.Obj?
  {
  }

  function Compact(v: Json, depth: nat, max: nat): Json
    decreases v, 1
  {
    if depth > MAX_DEPTH then Null
    else
      match v
      case Str(s) => if |s| <= MAX_STRING then v else Str(s[..MAX_STRING])
      case Arr(items) => Arr(CompactItems(items, depth, max, []))
      case Obj(fields) => Obj(CompactFields(fields, depth, max, []))
      case _ => v
  }

  /** The list loop from a partial result, with its early break. */
  function CompactItems(items: seq<Json>, depth: nat, max: nat, out: seq<Json>): seq<Json>
    decreases items, 0
  {
    if items == [] then out
    else
      var r := Compact(items[0], depth + 1, max);
      var out' := if r == Null then out else out + [r];
      if |out'| >= max then out' else CompactItems(items[1..], depth, max, out')
  }

  /** The object loop; a skipped field does not even reach the size test. */
  function CompactFields(fields: seq<Field>, depth: nat, max: nat, out: seq<Field>): seq<Field>
    decreases fields, 0
  {
    if fields == [] then out
    else if Skipped(fields[0]) then CompactFields(fields[1..], depth, max, out)
    else
      var r := Compact(fields[0].value, depth + 1, max);
      var out' := if r == Null then out else out + [Field(fields[0].key, r)];
      if |out'| >= max then out' else CompactFields(fields[1..], depth, max, out')
  }

  /** The recursion with its loops, as the source runs it. */
  method Reduce(v: Json, depth: nat, max: nat) returns (r: Json)
    ensures r == Compact(v, depth, max)
    decreases v
  {
    if depth > MAX_DEPTH { return Null; }
    match v {
      case Str(s) => return if |s| <= MAX_STRING then v else Str(s[..MAX_STRING]);
      case Obj(fields) =>
        var out: seq<Field> := [];
        var i := 0;
        while i < |fields|
          invariant 0 <= i <= |fields|
          invariant CompactFields(fields[i..], depth, max, out) == CompactFields(fields, depth, max, [])
        {
          assert fields[i..][1..] == fields[i + 1..];
          if !Skipped(fields[i]) {
            var reduced := Reduce(fields[i].value, depth + 1, max);
            if reduced != Null { out := out + [Field(fields[i].key, reduced)]; }
            if |out| >= max { return Obj(out); }
          }
          i := i + 1;
        }
        return Obj(out);
      case Arr(items) =>
        var out: seq<Json> := [];
        var i := 0;
        while i < |items|
          invariant 0 <= i <= |items|
          invariant CompactItems(items[i..], depth, max, out) == CompactItems(items, depth, max, [])
        {
          assert items[i..][1..] == items[i + 1..];
          var reduced := Reduce(items[i], depth + 1, max);
          if reduced != Null { out := out + [reduced]; }
          if |out| >= max { return Arr(out); }
          i := i + 1;
        }
        return Arr(out);
      case _ => return v;
    }
  }

  // -------------------------------------------------------------------------
  // The shape of a result
  // -------------------------------------------------------------------------

  /** Bounded at this depth: short strings, few items, no nulls inside containers, no
      clock readings, nothing below the depth limit. */
  ghost predicate Reduced(v: Json, depth: nat, max: nat)
    decreases v
  {
    if depth > MAX_DEPTH then v == Null
    else
      match v
      case Str(s) => |s| <= MAX_STRING
      case Arr(items) => |items| <= max && forall x | x in items :: x != Null && Reduced(x, depth + 1, max)
      case Obj(fields) =>
        |fields| <= max && forall f | f in fields :: !Skipped(f) && f.value != Null && Reduced(f.value, depth + 1, max)
      case _ => true
  }

  lemma {:induction false} CompactReduced(v: Json, depth: nat, max: nat)
    requires max >= 1
    ensures Reduced(Compact(v, depth, max), depth, max)
    decreases v, 1
  {
    match v
    case Arr(items) => if depth <= MAX_DEPTH { ItemsReduced(items, depth, max, []); }
    case Obj(fields) => if depth <= MAX_DEPTH { FieldsReduced(fields, depth, max, []); }
    case _ =>
  }

  lemma {:induction false} ItemsReduced(items: seq<Json>, depth: nat, max: nat, out: seq<Json>)
    requires max >= 1 && |out| < max && forall x | x in out :: x != Null && Reduced(x, depth + 1, max)
    ensures var r := CompactItems(items, depth, max, out);
            |r| <= max && forall x | x in r :: x != Null && Reduced(x, depth + 1, max)
    decreases items, 0
  {
    if items != [] {
      CompactReduced(items[0], depth + 1, max);
      var r := Compact(items[0], depth + 1, max);
      var out' := if r == Null then out else out + [r];
      if |out'| < max { ItemsReduced(items[1..], depth, max, out'); }
    }
  }

  /** Above the depth limit a string keeps its first 400 characters, another scalar is kept and
      a container stays one of its kind; below it nothing is left. */
  lemma {:induction false} CompactKind(v: Json, depth: nat, max: nat)
    ensures depth > 3 ==> Compact(v, depth, max) == Null
    ensures depth <= 3 ==>
              match v
              case Str(s) =>
                var r := Compact(v, depth, max);
                r.Str? && r.s <= s && |r.s| == if |s| < 400 then |s| else 400
              case Arr(_) => Compact(v, depth, max).Arr?
              case Obj(_) => Compact(v, depth, max).Obj?
              case _ => Compact(v, depth, max) == v
  {
  }

  /** A kept value is a scalar only if it was one, so kept fields stay unskipped. */
  lemma {:induction false} CompactScalar(v: Json, depth: nat, max: nat)
    requires Compact(v, depth, max) != Null
    ensures IsScalar(Compact(v, depth, max)) <==> IsScalar(v)
  {
  }

  lemma {:induction false} FieldsReduced(fields: seq<Field>, depth: nat, max: nat, out: seq<Field>)
    requires max >= 1 && |out| < max
    requires forall f | f in out :: !Skipped(f) && f.value != Null && Reduced(f.value, depth + 1, max)
    ensures var r := CompactFields(fields, depth, max, out);
            |r| <= max && forall f | f in r :: !Skipped(f) && f.value != Null && Reduced(f.value, depth + 1, max)
    decreases fields, 0
  {
    if fields != [] {
      if Skipped(fields[0]) {
        FieldsReduced(fields[1..], depth, max, out);
      } else {
        CompactReduced(fields[0].value, depth + 1, max);
        var r := Compact(fields[0].value, depth + 1, max);
        var out' := if r == Null then out else out + [Field(fields[0].key, r)];
        if r != Null { CompactScalar(fields[0].value, depth + 1, max); }
        if |out'| < max { FieldsReduced(fields[1..], depth, max, out'); }
      }
    }
  }

  // -------------------------------------------------------------------------
  // What is kept
  // -------------------------------------------------------------------------

  function FirstOnes<T>(q: seq<T>, n: nat): seq<T> {
    if |q| <= n then q else q[..n]
  }

  /** The reduced items that are not null, in order. */
  function KeptItems(items: seq<Json>, depth: nat, max: nat): seq<Json>
    decreases items, 1
  {
    if items == [] then []
    else
      var r := Compact(items[0], depth + 1, max);
      (if r == Null then [] else [r]) + KeptItems(items[1..], depth, max)
  }

  function KeptFields(fields: seq<Field>, depth: nat, max: nat): seq<Field>
    decreases fields, 1
  {
    if fields == [] then []
    else
      var r := Compact(fields[0].value, depth + 1, max);
      (if Skipped(fields[0]) || r == Null then [] else [Field(fields[0].key, r)]) + KeptFields(fields[1..], depth, max)
  }

  /** A reduced list is the first `max` of its reduced items that are not null. */
  lemma {:induction false} ItemsExactly(items: seq<Json>, depth: nat, max: nat, out: seq<Json>)
    requires |out| < max
    ensures CompactItems(items, depth, max, out) == FirstOnes(out + KeptItems(items, depth, max), max)
    decreases items, 0
  {
    if items == [] {
      assert out + [] == out;
    } else {
      var r := Compact(items[0], depth + 1, max);
      var rest := KeptItems(items[1..], depth, max);
      var out' := if r == Null then out else out + [r];
      assert out + KeptItems(items, depth, max) == out' + rest;
      if |out'| < max { ItemsExactly(items[1..], depth, max, out'); }
    }
  }

  /** A reduced object has the first `max` of its fields that are neither skipped nor
      reduced to null, each under its key. */
  lemma {:induction false} FieldsExactly(fields: seq<Field>, depth: nat, max: nat, out: seq<Field>)
    requires |out| < max
    ensures CompactFields(fields, depth, max, out) == FirstOnes(out + KeptFields(fields, depth, max), max)
    decreases fields, 0
  {
    if fields == [] {
      assert out + [] == out;
    } else {
      var r := Compact(fields[0].value, depth + 1, max);
      var rest := KeptFields(fields[1..], depth, max);
      var out' := if Skipped(fields[0]) || r == Null then out else out + [Field(fields[0].key, r)];
      assert out + KeptFields(fields, depth, max) == out' + rest;
      if |out'| < max { FieldsExactly(fields[1..], depth, max, out'); }
    }
  }

  // -------------------------------------------------------------------------
  // Idempotence
  // -------------------------------------------------------------------------

  lemma {:induction false} ReducedFixed(v: Json, depth: nat, max: nat)
    requires Reduced(v, depth, max)
    ensures Compact(v, depth, max) == v
    decreases v, 1
  {
    match v
    case Arr(items) => if depth <= MAX_DEPTH { ItemsFixed(items, depth, max, []); assert [] + items == items; }
    case Obj(fields) => if depth <= MAX_DEPTH { FieldsFixed(fields, depth, max, []); assert [] + fields == fields; }
    case _ =>
  }

  lemma {:induction false} ItemsFixed(items: seq<Json>, depth: nat, max: nat, out: seq<Json>)
    requires |out| + |items| <= max && forall x | x in items :: x != Null && Reduced(x, depth + 1, max)
    ensures CompactItems(items, depth, max, out) == out + items
    decreases items, 0
  {
    if items == [] {
      assert out + items == out;
    } else {
      assert items[0] in items;
      ReducedFixed(items[0], depth + 1, max);
      assert out + items == out + [items[0]] + items[1..];
      assert forall x | x in items[1..] :: x in items;
      ItemsFixed(items[1..], depth, max, out + [items[0]]);
      if |out| + 1 >= max { assert items[1..] == []; }
    }
  }

  lemma {:induction false} FieldsFixed(fields: seq<Field>, depth: nat, max: nat, out: seq<Field>)
    requires |out| + |fields| <= max
    requires forall f | f in fields :: !Skipped(f) && f.value != Null && Reduced(f.value, depth + 1, max)
    ensures CompactFields(fields, depth, max, out) == out + fields
    decreases fields, 0
  {
    if fields == [] {
      assert out + fields == out;
    } else {
      assert fields[0] in fields;
      ReducedFixed(fields[0].value, depth + 1, max);
      assert out + fields == out + [fields[0]] + fields[1..];
      FieldsFixed(fields[1..], depth, max, out + [fields[0]]);
      if |out| + 1 >= max { assert fields[1..] == []; }
    }
  }

  /** Reducing twice is reducing once. */
  lemma {:induction false} CompactIdempotent(v: Json, depth: nat, max: nat)
    requires max >= 1
    ensures Compact(Compact(v, depth, max), depth, max) == Compact(v, depth, max)
  {
    CompactReduced(v, depth, max);
    ReducedFixed(Compact(v, depth, max), depth, max);
  }

  // -------------------------------------------------------------------------
  // Depth
  // -------------------------------------------------------------------------

  /** How many containers lie inside one another. */
  function Nesting(v: Json): nat
    decreases v, 1
  {
    match v
    case Arr(items) => 1 + ItemsNesting(items)
    case Obj(fields) => 1 + FieldsNesting(fields)
    case _ => 0
  }

  function ItemsNesting(items: seq<Json>): nat
    decreases items, 0
  {
    if items == [] then 0 else Max(Nesting(items[0]), ItemsNesting(items[1..]))
  }

  function FieldsNesting(fields: seq<Field>): nat
    decreases fields, 0
  {
    if fields == [] then 0 else Max(Nesting(fields[0].value), FieldsNesting(fields[1..]))
  }

  function Max(a: nat, b: nat): nat {
    if a < b then b else a
  }

  lemma {:induction false} ReducedNesting(v: Json, depth: nat, max: nat)
    requires Reduced(v, depth, max)
    ensures Nesting(v) <= if depth <= MAX_DEPTH then MAX_DEPTH + 1 - depth else 0
    decreases v, 1
  {
    if depth <= MAX_DEPTH {
      match v
      case Arr(items) => ItemsReducedNesting(items, depth, max);
      case Obj(fields) => FieldsReducedNesting(fields, depth, max);
      case _ =>
    }
  }

  lemma {:induction false} ItemsReducedNesting(items: seq<Json>, depth: nat, max: nat)
    requires depth <= MAX_DEPTH && forall x | x in items :: x != Null && Reduced(x, depth + 1, max)
    ensures ItemsNesting(items) <= MAX_DEPTH - depth
    decreases items, 0
  {
    if items != [] {
      assert items[0] in items;
      ReducedNesting(items[0], depth + 1, max);
      assert forall x | x in items[1..] :: x in items;
      ItemsReducedNesting(items[1..], depth, max);
    }
  }

  lemma {:induction false} FieldsReducedNesting(fields: seq<Field>, depth: nat, max: nat)
    requires depth <= MAX_DEPTH && forall f | f in fields :: f.value != Null && Reduced(f.value, depth + 1, max)
    ensures FieldsNesting(fields) <= MAX_DEPTH - depth
    decreases fields, 0
  {
    if fields != [] {
      assert fields[0] in fields;
      ReducedNesting(fields[0].value, depth + 1, max);
      FieldsReducedNesting(fields[1..], depth, max);
    }
  }

  /** A whole reduced packet: containers nest at most four deep and everything in it is
      bounded. */
  lemma {:induction false} PacketBounded(v: Json)
    ensures Reduced(Compact(v, 0, MAX_ITEMS), 0, MAX_ITEMS)
    ensures Nesting(Compact(v, 0, MAX_ITEMS)) <= 4
  {
    CompactReduced(v, 0, MAX_ITEMS);
    ReducedNesting(Compact(v, 0, MAX_ITEMS), 0, MAX_ITEMS);
  }

  // -------------------------------------------------------------------------
  // Clock readings do not matter
  // -------------------------------------------------------------------------

  /** The tree without any scalar under a volatile key. */
  function Timeless(v: Json): Json
    decreases v, 1
  {
    match v
    case Arr(items) => Arr(TimelessItems(items))
    case Obj(fields) => Obj(TimelessFields(fields))
    case _ => v
  }

  function TimelessItems(items: seq<Json>): (r: seq<Json>)
    decreases items, 0
  {
    if items == [] then [] else [Timeless(items[0])] + TimelessItems(items[1..])
  }

  function TimelessFields(fields: seq<Field>): (r: seq<Field>)
    decreases fields, 0
  {
    if fields == [] then []
    else if Skipped(fields[0]) then TimelessFields(fields[1..])
    else [Field(fields[0].key, Timeless(fields[0].value))] + TimelessFields(fields[1..])
  }

  lemma {:induction false} CompactTimeless(v: Json, depth: nat, max: nat)
    ensures Compact(Timeless(v), depth, max) == Compact(v, depth, max)
    decreases v, 1
  {
    match v
    case Arr(items) => ItemsTimeless(items, depth, max, []);
    case Obj(fields) => FieldsTimeless(fields, depth, max, []);
    case _ =>
  }

  lemma {:induction false} ItemsTimeless(items: seq<Json>, depth: nat, max: nat, out: seq<Json>)
    ensures CompactItems(TimelessItems(items), depth, max, out) == CompactItems(items, depth, max, out)
    decreases items, 0
  {
    if items != [] {
      CompactTimeless(items[0], depth + 1, max);
      assert TimelessItems(items)[1..] == TimelessItems(items[1..]);
      var r := Compact(items[0], depth + 1, max);
      ItemsTimeless(items[1..], depth, max, if r == Null then out else out + [r]);
    }
  }

  lemma {:induction false} FieldsTimeless(fields: seq<Field>, depth: nat, max: nat, out: seq<Field>)
    ensures CompactFields(TimelessFields(fields), depth, max, out) == CompactFields(fields, depth, max, out)
    decreases fields, 0
  {
    if fields != [] {
      if Skipped(fields[0]) {
        FieldsTimeless(fields[1..], depth, max, out);
      } else {
        CompactTimeless(fields[0].value, depth + 1, max);
        assert TimelessFields(fields)[1..] == TimelessFields(fields[1..]);
        var r := Compact(fields[0].value, depth + 1, max);
        FieldsTimeless(fields[1..], depth, max, if r == Null then out else out + [Field(fields[0].key, r)]);
      }
    }
  }

  /** Two trees alike except for scalars under volatile keys. */
  predicate SameButClock(v: Json, w: Json)
    decreases v, 1
  {
    match v
    case Arr(items) => w.Arr? && SameItems(items, w.items)
    case Obj(fields) => w.Obj? && SameFields(fields, w.fields)
    case _ => v == w
  }

  predicate SameItems(a: seq<Json>, b: seq<Json>)
    decreases a, 0
  {
    |a| == |b| && (a != [] ==> SameButClock(a[0], b[0]) && SameItems(a[1..], b[1..]))
  }

  predicate SameFields(a: seq<Field>, b: seq<Field>)
    decreases a, 0
  {
    && |a| == |b|
    && (a != [] ==>
          && a[0].key == b[0].key
          && ((Skipped(a[0]) && Skipped(b[0])) || SameButClock(a[0].value, b[0].value))
          && SameFields(a[1..], b[1..]))
  }

  lemma {:induction false} SameTimeless(v: Json, w: Json)
    requires SameButClock(v, w)
    ensures Timeless(v) == Timeless(w) && (IsScalar(v) <==> IsScalar(w))
    decreases v, 1
  {
    match v
    case Arr(items) => SameItemsTimeless(items, w.items);
    case Obj(fields) => SameFieldsTimeless(fields, w.fields);
    case _ =>
  }

  lemma {:induction false} SameItemsTimeless(a: seq<Json>, b: seq<Json>)
    requires SameItems(a, b)
    ensures TimelessItems(a) == TimelessItems(b)
    decreases a, 0
  {
    if a != [] {
      SameTimeless(a[0], b[0]);
      SameItemsTimeless(a[1..], b[1..]);
    }
  }

  lemma {:induction false} SameFieldsTimeless(a: seq<Field>, b: seq<Field>)
    requires SameFields(a, b)
    ensures TimelessFields(a) == TimelessFields(b)
    decreases a, 0
  {
    if a != [] {
      if SameButClock(a[0].value, b[0].value) { SameTimeless(a[0].value, b[0].value); }
      SameFieldsTimeless(a[1..], b[1..]);
    }
  }

  /** Inputs that differ only in clock readings reduce to the same packet. */
  lemma {:induction false} ClockInsensitive(v: Json, w: Json, depth: nat, max: nat)
    requires SameButClock(v, w)
    ensures Compact(v, depth, max) == Compact(w, depth, max)
  {
    SameTimeless(v, w);
    CompactTimeless(v, depth, max);
    CompactTimeless(w, depth, max);
  }
}
