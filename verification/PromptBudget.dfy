/** `PromptBuilder._fit`: dropping the largest optional parts of a packet until it fits. */
module PromptBudget {
  import opened Options
  import opened Json

  const PASSES := 30

  const MILESTONES: seq<string> := ["m1", "m2", "m3", "m4", "m5", "m6", "m7", "m8", "m9", "m10"]
  const KEYS: seq<string> := ["summary", "metrics"]

  /** One removable subtree, reported as `milestone.key`. */
  datatype Slot = Slot(milestone: string, key: string)

  datatype Candidate = Candidate(size: nat, slot: Slot)

  /** `packet[milestone][key]`, if the entry is an object that has it. */
  function Lookup(packet: seq<Field>, milestone: string, key: string): Option<Json> {
    var entry := Get(packet, milestone);
    if entry.Some? && entry.value.Obj? then Get(entry.value.fields, key) else None
  }

  /** It is found exactly where the milestone's entry is an object with that key. */
  lemma {:induction false} LookupExactly(packet: seq<Field>, milestone: string, key: string, v: Json)
    ensures Lookup(packet, milestone, key) == Some(v)
       <==> exists fields :: Get(packet, milestone) == Some(Obj(fields)) && Get(fields, key) == Some(v)
  {
    var entry := Get(packet, milestone);
    if entry.Some? && entry.value.Obj? { assert entry == Some(Obj(entry.value.fields)); }
  }

  predicate Present(packet: seq<Field>, slot: Slot) {
    Lookup(packet, slot.milestone, slot.key).Some?
  }

  function PacketSize(packet: seq<Field>): nat {
    Size(Obj(packet))
  }

  function SlotSize(used: seq<Field>, slot: Slot): nat
    requires Present(used, slot)
  {
    Size(Lookup(used, slot.milestone, slot.key).value)
  }

  // -------------------------------------------------------------------------
  // One pass
  // -------------------------------------------------------------------------

  /** Every milestone with every key, in scan order. */
  function Pairs(milestones: seq<string>, keys: seq<string>): seq<Slot> {
    if milestones == [] then []
    else Row(milestones[0], keys) + Pairs(milestones[1..], keys)
  }

  function Row(milestone: string, keys: seq<string>): (r: seq<Slot>)
    ensures |r| == |keys| && forall i | 0 <= i < |r| :: r[i] == Slot(milestone, keys[i])
  {
    seq(|keys|, i requires 0 <= i < |keys| => Slot(milestone, keys[i]))
  }

  function Optional(): seq<Slot> {
    Pairs(MILESTONES, KEYS)
  }

  /** The first present slot of the greatest size. */
  function Best(used: seq<Field>, slots: seq<Slot>): (r: Option<Slot>)
    ensures r.Some? ==> Present(used, r.value)
  {
    if slots == [] then None
    else
      var best := Best(used, slots[..|slots| - 1]);
      var last := slots[|slots| - 1];
      if Present(used, last) && (best.None? || SlotSize(used, last) > SlotSize(used, best.value)) then Some(last)
      else best
  }

  /** `del entry[key]`, then the entry itself goes when it is empty. */
  function Remove(used: seq<Field>, slot: Slot): seq<Field>
    requires Present(used, slot)
  {
    var entry := Delete(Get(used, slot.milestone).value.fields, slot.key);
    if entry == [] then Delete(used, slot.milestone) else Set(used, slot.milestone, Obj(entry))
  }

  /** What a pass does: nothing once the packet fits or has nothing to drop. */
  datatype Pass = Stop | Drop(slot: Slot, after: seq<Field>)

  function Once(used: seq<Field>, slots: seq<Slot>, budget: int): Pass {
    if PacketSize(used) <= budget then Stop
    else
      var best := Best(used, slots);
      if best.None? then Stop else Drop(best.value, Remove(used, best.value))
  }

  /** Up to `passes` passes from a partly trimmed packet. */
  function FitFrom(pass: seq<Field> -> Pass, used: seq<Field>, dropped: seq<Slot>, passes: nat): (seq<Field>, seq<Slot>)
    decreases passes
  {
    if passes == 0 || pass(used).Stop? then (used, dropped)
    else FitFrom(pass, pass(used).after, dropped + [pass(used).slot], passes - 1)
  }

  function Trimming(slots: seq<Slot>, budget: int): seq<Field> -> Pass {
    used => Once(used, slots, budget)
  }

  function Fitted(packet: seq<Field>, budget: int): (seq<Field>, seq<Slot>) {
    FitFrom(Trimming(Optional(), budget), packet, [], PASSES)
  }

  // -------------------------------------------------------------------------
  // The loops
  // -------------------------------------------------------------------------

  predicate Measured(used: seq<Field>, c: Candidate) {
    Present(used, c.slot) && c.size == SlotSize(used, c.slot)
  }

  /** The present slots with their sizes, in order. */
  function Collected(used: seq<Field>, slots: seq<Slot>): (r: seq<Candidate>)
    ensures forall i | 0 <= i < |r| :: Measured(used, r[i])
  {
    if slots == [] then []
    else if Present(used, slots[0]) then [Candidate(SlotSize(used, slots[0]), slots[0])] + Collected(used, slots[1..])
    else Collected(used, slots[1..])
  }

  method CollectRemovable(used: seq<Field>, milestones: seq<string>, keys: seq<string>)
    returns (removable: seq<Candidate>)
    ensures removable == Collected(used, Pairs(milestones, keys))
  {
    removable := [];
    for i := 0 to |milestones|
      invariant removable + Collected(used, Pairs(milestones[i..], keys)) == Collected(used, Pairs(milestones, keys))
    {
      var milestone := milestones[i];
      var row := CollectRow(used, milestone, keys);
      assert milestones[i..][1..] == milestones[i + 1..];
      CollectedSplit(used, Row(milestone, keys), Pairs(milestones[i + 1..], keys));
      removable := removable + row;
    }
    assert removable + [] == removable;
  }

  /** The inner loop, with the test that skips an entry that is not an object. */
  method CollectRow(used: seq<Field>, milestone: string, keys: seq<string>) returns (row: seq<Candidate>)
    ensures row == Collected(used, Row(milestone, keys))
  {
    row := [];
    var entry := Get(used, milestone);
    if entry.None? || !entry.value.Obj? {
      NoneCollected(used, Row(milestone, keys), milestone);
      return;
    }
    var slots := Row(milestone, keys);
    for j := 0 to |keys|
      invariant row + Collected(used, slots[j..]) == Collected(used, slots)
    {
      assert slots[j..][1..] == slots[j + 1..];
      var v := Get(entry.value.fields, keys[j]);
      if v.Some? { row := row + [Candidate(Size(v.value), Slot(milestone, keys[j]))]; }
    }
    assert row + [] == row;
  }

  lemma {:induction false} NoneCollected(used: seq<Field>, slots: seq<Slot>, milestone: string)
    requires forall i | 0 <= i < |slots| :: slots[i].milestone == milestone
    requires var entry := Get(used, milestone); entry.None? || !entry.value.Obj?
    ensures Collected(used, slots) == []
  {
    if slots != [] { NoneCollected(used, slots[1..], milestone); }
  }

  lemma {:induction false} CollectedSplit(used: seq<Field>, a: seq<Slot>, b: seq<Slot>)
    ensures Collected(used, a + b) == Collected(used, a) + Collected(used, b)
  {
    if a == [] {
      assert a + b == b;
    } else {
      assert (a + b)[1..] == a[1..] + b;
      CollectedSplit(used, a[1..], b);
    }
  }

  /** Index of the first candidate of the greatest size. */
  method PickLargest(candidates: seq<Candidate>) returns (k: nat)
    requires candidates != []
    ensures k < |candidates|
    ensures forall i | 0 <= i < |candidates| :: candidates[i].size <= candidates[k].size
    ensures forall i | 0 <= i < k :: candidates[i].size < candidates[k].size
  {
    k := 0;
    for i := 1 to |candidates|
      invariant k < i
      invariant forall j | 0 <= j < i :: candidates[j].size <= candidates[k].size
      invariant forall j | 0 <= j < k :: candidates[j].size < candidates[k].size
    {
      if candidates[i].size > candidates[k].size { k := i; }
    }
  }

  /** The first largest candidate is the best slot. */
  lemma {:induction false} BestIsFirstLargest(used: seq<Field>, slots: seq<Slot>, k: nat)
    requires var c := Collected(used, slots);
             && k < |c| && (forall i | 0 <= i < |c| :: c[i].size <= c[k].size)
             && forall i | 0 <= i < k :: c[i].size < c[k].size
    ensures Best(used, slots) == Some(Collected(used, slots)[k].slot)
  {
    var before, last := slots[..|slots| - 1], slots[|slots| - 1];
    assert slots == before + [last];
    CollectedSplit(used, before, [last]);
    var c, d := Collected(used, slots), Collected(used, before);
    assert forall i | 0 <= i < |d| :: c[i] == d[i];
    if k < |d| {
      BestIsFirstLargest(used, before, k);
      assert Measured(used, d[k]);
      if Present(used, last) { assert c[|d|] == Candidate(SlotSize(used, last), last); }
    } else {
      assert c[k].slot == last;
      if Best(used, before).Some? { BestMeasured(used, before); }
    }
  }

  lemma {:induction false} NothingBest(used: seq<Field>, slots: seq<Slot>)
    requires Collected(used, slots) == []
    ensures Best(used, slots) == None
  {
    if slots != [] {
      var before, last := slots[..|slots| - 1], slots[|slots| - 1];
      assert slots == before + [last];
      CollectedSplit(used, before, [last]);
      NothingBest(used, before);
    }
  }

  /** The best slot is one of the collected ones. */
  lemma {:induction false} BestMeasured(used: seq<Field>, slots: seq<Slot>)
    requires Best(used, slots).Some?
    ensures exists i :: 0 <= i < |Collected(used, slots)| && Collected(used, slots)[i].slot == Best(used, slots).value
  {
    var before, last := slots[..|slots| - 1], slots[|slots| - 1];
    assert slots == before + [last];
    CollectedSplit(used, before, [last]);
    if Best(used, slots) == Best(used, before) {
      BestMeasured(used, before);
      var i :| 0 <= i < |Collected(used, before)| && Collected(used, before)[i].slot == Best(used, before).value;
      assert Collected(used, slots)[i].slot == Best(used, slots).value;
    } else {
      assert Collected(used, slots)[|Collected(used, before)|].slot == last;
    }
  }

  method PickSlot(used: seq<Field>, milestones: seq<string>, keys: seq<string>) returns (slot: Option<Slot>)
    ensures slot == Best(used, Pairs(milestones, keys))
  {
    ghost var slots := Pairs(milestones, keys);
    var removable := CollectRemovable(used, milestones, keys);
    if removable == [] {
      NothingBest(used, slots);
      return None;
    }
    var k := PickLargest(removable);
    BestIsFirstLargest(used, slots, k);
    return Some(removable[k].slot);
  }

  /** The body of the loop; stopping stands for its two `break`s. */
  method TrimOnce(used: seq<Field>, milestones: seq<string>, keys: seq<string>, budget: int) returns (pass: Pass)
    ensures pass == Once(used, Pairs(milestones, keys), budget)
  {
    if PacketSize(used) <= budget { return Stop; }
    var picked := PickSlot(used, milestones, keys);
    if picked.None? { return Stop; }
    var slot := picked.value;
    var entry := Delete(Get(used, slot.milestone).value.fields, slot.key);
    if entry == [] { return Drop(slot, Delete(used, slot.milestone)); }
    return Drop(slot, Set(used, slot.milestone, Obj(entry)));
  }

  method Trim(packet: seq<Field>, milestones: seq<string>, keys: seq<string>, budget: int, passes: nat)
    returns (used: seq<Field>, dropped: seq<Slot>)
    ensures (used, dropped) == FitFrom(Trimming(Pairs(milestones, keys), budget), packet, [], passes)
  {
    used, dropped := packet, [];
    ghost var step := Trimming(Pairs(milestones, keys), budget);
    if PacketSize(used) <= budget {
      assert step(used) == Stop;
      return;
    }
    for i := 0 to passes
      invariant FitFrom(step, used, dropped, passes - i) == FitFrom(step, packet, [], passes)
    {
      var pass := TrimOnce(used, milestones, keys, budget);
      assert step(used) == pass;
      if pass.Stop? { return; }
      used, dropped := pass.after, dropped + [pass.slot];
    }
  }

  method Fit(packet: seq<Field>, budget: int) returns (used: seq<Field>, dropped: seq<Slot>)
    ensures (used, dropped) == Fitted(packet, budget)
  {
    used, dropped := Trim(packet, MILESTONES, KEYS, budget, PASSES);
  }

  // -------------------------------------------------------------------------
  // What a removal does
  // -------------------------------------------------------------------------

  lemma {:induction false} RemoveShrinks(used: seq<Field>, slot: Slot)
    requires Present(used, slot)
    ensures PacketSize(Remove(used, slot)) < PacketSize(used)
  {
    var fields := Get(used, slot.milestone).value.fields;
    DeleteShrinks(fields, slot.key);
    DeleteShrinks(used, slot.milestone);
    if Delete(fields, slot.key) != [] {
      SetShrinks(used, slot.milestone, Obj(Delete(fields, slot.key)));
    }
  }

  /** An entry that lost parts is not left behind empty. */
  predicate NoHusk(used: seq<Field>, milestone: string) {
    var entry := Get(used, milestone);
    entry.Some? ==> entry.value.Obj? && entry.value.fields != []
  }

  /** A removal takes its own slot away and leaves every other path and every other
      top-level entry as it was. */
  lemma {:induction false} RemoveOnly(used: seq<Field>, slot: Slot, milestone: string, key: string)
    requires Present(used, slot)
    ensures Lookup(Remove(used, slot), milestone, key)
         == if slot == Slot(milestone, key) then None else Lookup(used, milestone, key)
    ensures milestone != slot.milestone ==> Get(Remove(used, slot), milestone) == Get(used, milestone)
    ensures NoHusk(Remove(used, slot), slot.milestone)
  {
    var fields := Get(used, slot.milestone).value.fields;
    var entry := Delete(fields, slot.key);
    GetAfterDelete(fields, slot.key, key);
    if entry == [] {
      GetAfterDelete(used, slot.milestone, milestone);
      GetAfterDelete(used, slot.milestone, slot.milestone);
    } else {
      GetAfterSet(used, slot.milestone, Obj(entry), milestone);
      GetAfterSet(used, slot.milestone, Obj(entry), slot.milestone);
    }
  }

  /** The best slot is a present one of the greatest size; without one, nothing is left. */
  lemma {:induction false} BestSound(used: seq<Field>, slots: seq<Slot>, s: Slot)
    requires s in slots && Present(used, s)
    ensures Best(used, slots).Some? && Best(used, slots).value in slots
    ensures SlotSize(used, s) <= SlotSize(used, Best(used, slots).value)
  {
    var before, last := slots[..|slots| - 1], slots[|slots| - 1];
    assert slots == before + [last];
    BestListed(used, before);
    if s in before { BestSound(used, before, s); }
  }

  lemma {:induction false} BestListed(used: seq<Field>, slots: seq<Slot>)
    ensures Best(used, slots).Some? ==> Best(used, slots).value in slots
  {
    if slots != [] {
      BestListed(used, slots[..|slots| - 1]);
      assert slots == slots[..|slots| - 1] + [slots[|slots| - 1]];
    }
  }

  // -------------------------------------------------------------------------
  // Thirty passes are enough
  // -------------------------------------------------------------------------

  /** What the removals so far amount to: the reported slots were there and are gone, each
      was reported once, and every other path, and every entry that lost nothing, is as it
      was. */
  ghost predicate OnlyDropped(slots: seq<Slot>, packet: seq<Field>, used: seq<Field>, dropped: seq<Slot>) {
    && (forall s | s in dropped :: s in slots && Present(packet, s))
    && Distinct(dropped)
    && (forall m, k :: Lookup(used, m, k) == if Slot(m, k) in dropped then None else Lookup(packet, m, k))
    && (forall m :: if Untouched(m, dropped) then Get(used, m) == Get(packet, m) else NoHusk(used, m))
  }

  ghost predicate Distinct<T>(q: seq<T>) {
    forall i, j | 0 <= i < j < |q| :: q[i] != q[j]
  }

  predicate Untouched(milestone: string, dropped: seq<Slot>) {
    forall s | s in dropped :: s.milestone != milestone
  }

  lemma {:induction false} DropOne(
      slots: seq<Slot>, packet: seq<Field>, used: seq<Field>, dropped: seq<Slot>, slot: Slot)
    requires OnlyDropped(slots, packet, used, dropped) && slot in slots && Present(used, slot)
    ensures OnlyDropped(slots, packet, Remove(used, slot), dropped + [slot])
  {
    var next, log := Remove(used, slot), dropped + [slot];
    assert Lookup(used, slot.milestone, slot.key).Some?;
    assert slot !in dropped;
    forall m, k
      ensures Lookup(next, m, k) == if Slot(m, k) in log then None else Lookup(packet, m, k)
    {
      RemoveOnly(used, slot, m, k);
    }
    assert slot in log && forall s | s in dropped :: s in log;
    forall m ensures if Untouched(m, log) then Get(next, m) == Get(packet, m) else NoHusk(next, m) {
      RemoveOnly(used, slot, m, "");
      assert Untouched(m, log) <==> Untouched(m, dropped) && m != slot.milestone;
    }
  }

  ghost predicate NothingLeft(slots: seq<Slot>, used: seq<Field>) {
    forall s | s in slots :: !Present(used, s)
  }

  /** One pass keeps the account; a pass that stops leaves a packet that fits or has
      nothing to drop. */
  lemma {:induction false} OnceSound(
      slots: seq<Slot>, packet: seq<Field>, used: seq<Field>, dropped: seq<Slot>, budget: int)
    requires OnlyDropped(slots, packet, used, dropped)
    ensures Keeps(slots, packet, used, dropped, budget, Once(used, slots, budget))
  {
    if PacketSize(used) > budget {
      var best := Best(used, slots);
      BestListed(used, slots);
      if best.Some? {
        DropOne(slots, packet, used, dropped, best.value);
      } else {
        forall s | s in slots ensures !Present(used, s) {
          if Present(used, s) { BestSound(used, slots, s); }
        }
      }
    }
  }

  ghost predicate Keeps(
      slots: seq<Slot>, packet: seq<Field>, used: seq<Field>, dropped: seq<Slot>, budget: int, pass: Pass)
  {
    match pass
    case Stop => PacketSize(used) <= budget || NothingLeft(slots, used)
    case Drop(slot, after) => OnlyDropped(slots, packet, after, dropped + [slot])
  }

  lemma {:induction false} FitFromSound(
      slots: seq<Slot>, packet: seq<Field>, used: seq<Field>, dropped: seq<Slot>, budget: int, passes: nat,
      step: seq<Field> -> Pass)
    requires forall u, d | OnlyDropped(slots, packet, u, d) :: Keeps(slots, packet, u, d, budget, step(u))
    requires OnlyDropped(slots, packet, used, dropped)
    ensures var (u, d) := FitFrom(step, used, dropped, passes);
            && OnlyDropped(slots, packet, u, d)
            && (|d| < |dropped| + passes ==> PacketSize(u) <= budget || NothingLeft(slots, u))
    decreases passes
  {
    assert Keeps(slots, packet, used, dropped, budget, step(used));
    if passes > 0 && step(used).Drop? {
      FitFromSound(slots, packet, step(used).after, dropped + [step(used).slot], budget, passes - 1, step);
    }
  }

  lemma {:induction false} TrimSound(packet: seq<Field>, slots: seq<Slot>, budget: int, passes: nat)
    requires |slots| < passes
    ensures var (used, dropped) := FitFrom(Trimming(slots, budget), packet, [], passes);
            && OnlyDropped(slots, packet, used, dropped)
            && (PacketSize(used) <= budget || NothingLeft(slots, used))
            && |dropped| <= |slots|
  {
    var step := Trimming(slots, budget);
    forall u, d | OnlyDropped(slots, packet, u, d) ensures Keeps(slots, packet, u, d, budget, step(u)) {
      OnceSound(slots, packet, u, d, budget);
    }
    FitFromSound(slots, packet, packet, [], budget, passes, step);
    DistinctBound(FitFrom(step, packet, [], passes).1, slots);
  }

  /** Distinct members of a list are no more than the list is long. */
  lemma {:induction false} DistinctBound<T>(q: seq<T>, all: seq<T>)
    requires Distinct(q) && forall x | x in q :: x in all
    ensures |q| <= |all|
  {
    if q != [] {
      var last, rest := q[|q| - 1], q[..|q| - 1];
      assert last in q;
      var i :| 0 <= i < |all| && all[i] == last;
      var others := all[..i] + all[i + 1..];
      forall x | x in rest ensures x in others {
        assert x in q && x != last;
        var j :| 0 <= j < |all| && all[j] == x;
        assert x == if j < i then others[j] else others[j - 1];
      }
      DistinctBound(rest, others);
    }
  }

  lemma {:induction false} PairsLength(milestones: seq<string>, keys: seq<string>)
    ensures |Pairs(milestones, keys)| == |milestones| * |keys|
  {
    if milestones != [] {
      PairsLength(milestones[1..], keys);
      assert |milestones| * |keys| == |keys| + |milestones[1..]| * |keys|;
    }
  }

  lemma {:induction false} PairsExactly(milestones: seq<string>, keys: seq<string>, s: Slot)
    ensures s in Pairs(milestones, keys) <==> s.milestone in milestones && s.key in keys
  {
    if milestones != [] {
      var row := Row(milestones[0], keys);
      PairsExactly(milestones[1..], keys, s);
      assert milestones == [milestones[0]] + milestones[1..];
      if s.milestone == milestones[0] && s.key in keys {
        var i :| 0 <= i < |keys| && keys[i] == s.key;
        assert row[i] == s;
      }
    }
  }

  lemma {:induction false} OptionalLength()
    ensures |Optional()| == 20
  {
    PairsLength(MILESTONES, KEYS);
  }

  /** The trimmed packet is within the budget or has nothing left to drop, so the thirty
      passes never run out; nothing but the reported slots is gone. */
  lemma {:induction false} FitSound(packet: seq<Field>, budget: int)
    ensures var (used, dropped) := Fitted(packet, budget);
            && OnlyDropped(Optional(), packet, used, dropped)
            && (PacketSize(used) <= budget || NothingLeft(Optional(), used))
            && |dropped| <= 20
  {
    OptionalLength();
    TrimSound(packet, Optional(), budget, PASSES);
  }

  /** The slots that may go are `summary` and `metrics` of `m1` to `m10`. */
  lemma {:induction false} OptionalExactly(s: Slot)
    ensures s in Optional() <==> s.milestone in MILESTONES && s.key in KEYS
  {
    PairsExactly(MILESTONES, KEYS, s);
  }

  lemma {:induction false} PairsInOrder(milestones: seq<string>, i: nat, j: nat)
    requires i < |milestones| && j < 2
    ensures |Pairs(milestones, KEYS)| == 2 * |milestones|
    ensures Pairs(milestones, KEYS)[2 * i + j] == Slot(milestones[i], KEYS[j])
  {
    var row, rest := Row(milestones[0], KEYS), Pairs(milestones[1..], KEYS);
    if |milestones| > 1 { PairsInOrder(milestones[1..], if i > 0 then i - 1 else 0, j); }
    if i > 0 { assert (row + rest)[2 * i + j] == rest[2 * (i - 1) + j]; }
  }

  /** The parts are listed milestone by milestone, the summary of each before its metrics;
      among parts of one size the first listed goes first. */
  lemma {:induction false} OptionalInOrder(i: nat)
    requires i < 10
    ensures |Optional()| == 20 && Optional()[2 * i] == Slot(MILESTONES[i], "summary")
    ensures Optional()[2 * i + 1] == Slot(MILESTONES[i], "metrics")
  {
    PairsInOrder(MILESTONES, i, 0);
    PairsInOrder(MILESTONES, i, 1);
  }

  // -------------------------------------------------------------------------
  // Every pass was needed, and took the largest part
  // -------------------------------------------------------------------------

  /** The n-th pass of a run that drops more than n slots is a dropping pass: the run is the
      passes one after another. */
  lemma {:induction false} PassAt(
      step: seq<Field> -> Pass, used: seq<Field>, dropped: seq<Slot>, passes: nat, n: nat)
    requires |dropped| + n < |FitFrom(step, used, dropped, passes).1|
    ensures n < passes && |FitFrom(step, used, dropped, n).1| == |dropped| + n
    ensures step(FitFrom(step, used, dropped, n).0)
         == Drop(FitFrom(step, used, dropped, passes).1[|dropped| + n], FitFrom(step, used, dropped, n + 1).0)
    decreases n
  {
    var next := step(used).after;
    if n == 0 {
      LogGrows(step, next, dropped + [step(used).slot], passes - 1);
    } else {
      PassAt(step, next, dropped + [step(used).slot], passes - 1, n - 1);
    }
  }

  lemma {:induction false} LogGrows(step: seq<Field> -> Pass, used: seq<Field>, dropped: seq<Slot>, passes: nat)
    ensures dropped <= FitFrom(step, used, dropped, passes).1
    decreases passes
  {
    if passes > 0 && step(used).Drop? {
      LogGrows(step, step(used).after, dropped + [step(used).slot], passes - 1);
    }
  }

  lemma {:induction false} OnceGreedy(used: seq<Field>, slots: seq<Slot>, budget: int)
    requires Once(used, slots, budget).Drop?
    ensures var Drop(slot, after) := Once(used, slots, budget);
            && PacketSize(used) > budget && PacketSize(after) < PacketSize(used)
            && Present(used, slot)
            && forall s | s in slots && Present(used, s) :: SlotSize(used, s) <= SlotSize(used, slot)
  {
    forall s | s in slots && Present(used, s)
      ensures SlotSize(used, s) <= SlotSize(used, Best(used, slots).value)
    {
      BestSound(used, slots, s);
    }
    RemoveShrinks(used, Best(used, slots).value);
  }

  /** Before the n-th removal the packet was still over budget; the removal took a part of
      the greatest size and made the packet smaller. */
  lemma {:induction false} PassNeeded(packet: seq<Field>, slots: seq<Slot>, budget: int, passes: nat, n: nat)
    requires n < |FitFrom(Trimming(slots, budget), packet, [], passes).1|
    ensures var before := FitFrom(Trimming(slots, budget), packet, [], n).0;
            var after := FitFrom(Trimming(slots, budget), packet, [], n + 1).0;
            var slot := FitFrom(Trimming(slots, budget), packet, [], passes).1[n];
            && PacketSize(before) > budget && PacketSize(after) < PacketSize(before)
            && Present(before, slot)
            && forall s | s in slots && Present(before, s) :: SlotSize(before, s) <= SlotSize(before, slot)
  {
    PassAt(Trimming(slots, budget), packet, [], passes, n);
    OnceGreedy(FitFrom(Trimming(slots, budget), packet, [], n).0, slots, budget);
  }
}
