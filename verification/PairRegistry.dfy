/** `PairRegistry`: allocating identifiers and saving records. */
module PairRegistry {
  import opened Options
  import opened PairIds

  datatype Record = Record(pairId: string, data: int)

  /** One element of the stored list; a corrupt one fails validation. */
  datatype Raw = Valid(record: Record) | Corrupt(text: string)

  /** `Unreadable` cannot be read or is no JSON, whatever entries its text still holds; `Alien`
      is JSON whose top level is no object or whose pairs cannot be iterated, which raises. */
  datatype File = Absent | Unreadable(held: seq<Raw>) | Alien | Pairs(raws: seq<Raw>)

  // -------------------------------------------------------------------------
  // Reading
  // -------------------------------------------------------------------------

  function ValidOnes(raws: seq<Raw>): seq<Record> {
    if raws == [] then []
    else (if raws[0].Valid? then [raws[0].record] else []) + ValidOnes(raws[1..])
  }

  /** `list()`: nothing for a file that is missing or does not parse. */
  function Listed(file: File): seq<Record>
    requires !file.Alien?
  {
    if file.Pairs? then ValidOnes(file.raws) else []
  }

  function Find(records: seq<Record>, id: string): Option<Record> {
    if records == [] then None
    else if records[0].pairId == id then Some(records[0]) else Find(records[1..], id)
  }

  /** The numbers of the well-formed identifiers. */
  function Used(records: seq<Record>): seq<nat> {
    if records == [] then []
    else (if WellFormed(records[0].pairId) then [Number(records[0].pairId)] else []) + Used(records[1..])
  }

  /** `max(used, default=0)` */
  function Greatest(used: seq<nat>): (g: nat)
    ensures forall u | u in used :: u <= g
    ensures g == 0 || g in used
  {
    if used == [] then 0
    else
      var g := Greatest(used[1..]);
      assert used == [used[0]] + used[1..];
      if used[0] > g then used[0] else g
  }

  function NextId(records: seq<Record>): string {
    Print(Greatest(Used(records)) + 1)
  }

  predicate Acceptable(records: seq<Record>, id: string) {
    WellFormed(id) && Find(records, id).None?
  }

  // -------------------------------------------------------------------------
  // Saving
  // -------------------------------------------------------------------------

  function Without(records: seq<Record>, id: string): seq<Record> {
    if records == [] then []
    else (if records[0].pairId != id then [records[0]] else []) + Without(records[1..], id)
  }

  /** A record goes before the first one with a greater identifier. */
  function Insert(records: seq<Record>, r: Record): seq<Record> {
    if records == [] then [r]
    else if AtMost(records[0].pairId, r.pairId) then [records[0]] + Insert(records[1..], r)
    else [r] + records
  }

  /** A stable sort by identifier. */
  function Sort(records: seq<Record>): seq<Record> {
    if records == [] then [] else Insert(Sort(records[..|records| - 1]), records[|records| - 1])
  }

  function Saved(records: seq<Record>, r: Record): seq<Record> {
    Sort(Without(records, r.pairId) + [r])
  }

  function Written(records: seq<Record>): File {
    Pairs(seq(|records|, i requires 0 <= i < |records| => Valid(records[i])))
  }

  /** The loop of `next_pair_id` over the identifiers. */
  method CollectUsed(records: seq<Record>) returns (used: seq<nat>)
    ensures used == Used(records)
  {
    used := [];
    for i := 0 to |records|
      invariant used + Used(records[i..]) == Used(records)
    {
      UsedStep(records[i..]);
      assert records[i..][1..] == records[i + 1..];
      var id := records[i].pairId;
      if WellFormed(id) { used := used + [Number(id)]; }
    }
    assert used + [] == used;
  }

  lemma {:induction false} UsedStep(records: seq<Record>)
    requires records != []
    ensures Used(records)
         == (if WellFormed(records[0].pairId) then [Number(records[0].pairId)] else []) + Used(records[1..])
  {
  }

  /** `[r for r in records if r.pair_id != record.pair_id]` */
  method Others(records: seq<Record>, id: string) returns (existing: seq<Record>)
    ensures existing == Without(records, id)
  {
    existing := [];
    for i := 0 to |records|
      invariant existing + Without(records[i..], id) == Without(records, id)
    {
      assert records[i..][1..] == records[i + 1..];
      if records[i].pairId != id { existing := existing + [records[i]]; }
    }
    assert existing + [] == existing;
  }

  class Registry {
    var file: File

    constructor (file: File)
      ensures this.file == file
    {
      this.file := file;
    }

    /** None is the exception. */
    method List() returns (records: Option<seq<Record>>)
      ensures records == if file.Alien? then None else Some(Listed(file))
    {
      if file.Alien? { return None; }
      if !file.Pairs? { return Some([]); }
      var found: seq<Record> := [];
      for i := 0 to |file.raws|
        invariant found + ValidOnes(file.raws[i..]) == ValidOnes(file.raws)
      {
        assert file.raws[i..][1..] == file.raws[i + 1..];
        if file.raws[i].Corrupt? { continue; }
        found := found + [file.raws[i].record];
      }
      assert found + [] == found;
      return Some(found);
    }

    method Get(id: string) returns (r: Option<Option<Record>>)
      ensures r == if file.Alien? then None else Some(Find(Listed(file), id))
    {
      var listed := List();
      if listed.None? { return None; }
      var records := listed.value;
      for i := 0 to |records|
        invariant Find(records[i..], id) == Find(records, id)
      {
        assert records[i..][1..] == records[i + 1..];
        if records[i].pairId == id { return Some(Some(records[i])); }
      }
      return Some(None);
    }

    method NextPairId() returns (id: Option<string>)
      ensures id == if file.Alien? then None else Some(NextId(Listed(file)))
    {
      var records := List();
      if records.None? { return None; }
      var used := CollectUsed(records.value);
      return Some(Print(Greatest(used) + 1));
    }

    method ValidatePairId(id: string) returns (ok: Option<bool>)
      ensures ok == if WellFormed(id) && file.Alien? then None
                    else Some(!file.Alien? && Acceptable(Listed(file), id))
    {
      if !WellFormed(id) { return Some(false); }
      var existing := Get(id);
      if existing.None? { return None; }
      return Some(existing.value.None?);
    }

    /** An exception leaves the file as it was. */
    method Save(r: Record) returns (done: bool)
      modifies this
      ensures done == !old(file).Alien?
      ensures file == if old(file).Alien? then old(file) else Written(Saved(Listed(old(file)), r))
    {
      var records := List();
      if records.None? { return false; }
      var existing := Others(records.value, r.pairId);
      existing := existing + [r];
      existing := Sort(existing);
      file := Written(existing);
      return true;
    }
  }

  // -------------------------------------------------------------------------
  // Fresh identifiers
  // -------------------------------------------------------------------------

  lemma {:induction false} NumbersUsed(records: seq<Record>, r: Record)
    requires r in records && WellFormed(r.pairId)
    ensures Number(r.pairId) in Used(records)
  {
    assert records == [records[0]] + records[1..];
    if r != records[0] { NumbersUsed(records[1..], r); }
  }

  lemma {:induction false} FindsMember(records: seq<Record>, id: string)
    ensures Find(records, id).Some? ==> Find(records, id).value in records && Find(records, id).value.pairId == id
    ensures Find(records, id).None? ==> forall r | r in records :: r.pairId != id
  {
    if records != [] {
      assert records == [records[0]] + records[1..];
      FindsMember(records[1..], id);
    }
  }

  lemma {:induction false} UsedNumbers(records: seq<Record>, n: nat)
    requires n in Used(records)
    ensures exists r | r in records :: WellFormed(r.pairId) && Number(r.pairId) == n
  {
    var first := records[0];
    if WellFormed(first.pairId) && Number(first.pairId) == n {
      assert first in records;
    } else {
      UsedNumbers(records[1..], n);
      var r :| r in records[1..] && WellFormed(r.pairId) && Number(r.pairId) == n;
      assert r in records;
    }
  }

  /** Acceptable are the well-formed identifiers that no record has. */
  lemma {:induction false} AcceptableExactly(records: seq<Record>, id: string)
    ensures Acceptable(records, id) <==> WellFormed(id) && forall r | r in records :: r.pairId != id
  {
    FindsMember(records, id);
  }

  /** The next identifier is well formed, one more than the greatest number in use, and no
      record has it, so validation accepts it. */
  lemma {:induction false} NextIdIsFresh(records: seq<Record>)
    ensures var id := NextId(records);
            && Acceptable(records, id)
            && (forall r | r in records :: r.pairId != id)
            && (forall r | r in records && WellFormed(r.pairId) :: Number(r.pairId) < Number(id))
            && (Number(id) == 1
                || exists r | r in records :: WellFormed(r.pairId) && Number(r.pairId) == Number(id) - 1)
  {
    var n := Greatest(Used(records)) + 1;
    RoundTrip(n);
    if n > 1 { UsedNumbers(records, n - 1); }
    forall r | r in records && WellFormed(r.pairId) ensures Number(r.pairId) < n {
      NumbersUsed(records, r);
    }
    FindsMember(records, NextId(records));
  }

  // -------------------------------------------------------------------------
  // What a save keeps
  // -------------------------------------------------------------------------

  ghost predicate Sorted(records: seq<Record>) {
    forall i, j | 0 <= i < j < |records| :: AtMost(records[i].pairId, records[j].pairId)
  }

  ghost predicate DistinctIds(records: seq<Record>) {
    forall i, j | 0 <= i < j < |records| :: records[i].pairId != records[j].pairId
  }

  lemma {:induction false} InsertMembers(records: seq<Record>, r: Record)
    ensures multiset(Insert(records, r)) == multiset(records) + multiset{r}
  {
    if records != [] && AtMost(records[0].pairId, r.pairId) {
      InsertMembers(records[1..], r);
      assert records == [records[0]] + records[1..];
    }
  }

  lemma {:induction false} InsertSorted(records: seq<Record>, r: Record)
    requires Sorted(records)
    ensures Sorted(Insert(records, r))
  {
    if records != [] {
      var rest, result := records[1..], Insert(records, r);
      if AtMost(records[0].pairId, r.pairId) {
        InsertSorted(rest, r);
        InsertMembers(rest, r);
        forall x | x in Insert(rest, r) ensures AtMost(records[0].pairId, x.pairId) {
          assert x in multiset(Insert(rest, r));
          assert x in multiset(rest) || x == r;
        }
        SortedCons(records[0], Insert(rest, r));
      } else {
        AtMostTotal(records[0].pairId, r.pairId);
        forall x | x in records ensures AtMost(r.pairId, x.pairId) {
          if x != records[0] { AtMostTransitive(r.pairId, records[0].pairId, x.pairId); }
        }
        SortedCons(r, records);
      }
    }
  }

  lemma {:induction false} SortedCons(r: Record, records: seq<Record>)
    requires Sorted(records) && forall x | x in records :: AtMost(r.pairId, x.pairId)
    ensures Sorted([r] + records)
  {
  }

  lemma {:induction false} SortSound(records: seq<Record>)
    ensures Sorted(Sort(records)) && multiset(Sort(records)) == multiset(records)
  {
    if records != [] {
      var before, last := records[..|records| - 1], records[|records| - 1];
      SortSound(before);
      InsertSorted(Sort(before), last);
      InsertMembers(Sort(before), last);
      assert records == before + [last];
    }
  }

  /** Inserting puts a record after those with its identifier, so lookups keep finding the
      first of them. */
  lemma {:induction false} InsertFind(records: seq<Record>, r: Record, id: string)
    requires Sorted(records)
    ensures Find(Insert(records, r), id)
         == if Find(records, id).None? && r.pairId == id then Some(r) else Find(records, id)
  {
    if records != [] {
      var result := Insert(records, r);
      if AtMost(records[0].pairId, r.pairId) {
        InsertFind(records[1..], r, id);
        assert result[1..] == Insert(records[1..], r);
      } else {
        assert result[1..] == records;
        FindsMember(records, r.pairId);
        if Find(records, r.pairId).Some? {
          var x := Find(records, r.pairId).value;
          if x == records[0] { AtMostReflexive(r.pairId); }
        }
      }
    }
  }

  lemma {:induction false} FindLast(records: seq<Record>, id: string)
    requires records != []
    ensures var before, last := records[..|records| - 1], records[|records| - 1];
            Find(records, id) == if Find(before, id).None? && last.pairId == id then Some(last) else Find(before, id)
  {
    var before, last := records[..|records| - 1], records[|records| - 1];
    assert records == before + [last];
    FindAppend(before, last, id);
  }

  lemma {:induction false} SortFind(records: seq<Record>, id: string)
    ensures Find(Sort(records), id) == Find(records, id)
  {
    if records != [] {
      var before, last := records[..|records| - 1], records[|records| - 1];
      SortFind(before, id);
      SortSound(before);
      InsertFind(Sort(before), last, id);
      FindLast(records, id);
    }
  }

  lemma {:induction false} FindAppend(records: seq<Record>, r: Record, id: string)
    ensures Find(records + [r], id)
         == if Find(records, id).None? && r.pairId == id then Some(r) else Find(records, id)
  {
    if records == [] {
      assert records + [r] == [r];
    } else {
      assert (records + [r])[1..] == records[1..] + [r];
      FindAppend(records[1..], r, id);
    }
  }

  lemma {:induction false} WithoutFind(records: seq<Record>, id: string, other: string)
    ensures Find(Without(records, id), other) == if other == id then None else Find(records, other)
  {
    if records != [] {
      WithoutFind(records[1..], id, other);
      if records[0].pairId == id {
        assert Without(records, id) == Without(records[1..], id);
      } else {
        assert Without(records, id)[1..] == Without(records[1..], id);
      }
    }
  }

  /** How many records carry an identifier. */
  function Count(records: seq<Record>, id: string): nat {
    if records == [] then 0 else (if records[0].pairId == id then 1 else 0) + Count(records[1..], id)
  }

  lemma {:induction false} CountBound(records: seq<Record>, id: string)
    requires DistinctIds(records)
    ensures Count(records, id) <= 1
    ensures (forall r | r in records :: r.pairId != id) ==> Count(records, id) == 0
  {
    if records != [] {
      assert records[0] in records;
      CountBound(records[1..], id);
      if records[0].pairId == id {
        forall r | r in records[1..] ensures r.pairId != id {
          var j :| 0 <= j < |records[1..]| && records[1..][j] == r;
          assert records[j + 1] == r;
        }
      }
    }
  }

  lemma {:induction false} DistinctByCount(records: seq<Record>)
    requires forall id :: Count(records, id) <= 1
    ensures DistinctIds(records)
  {
    if records != [] {
      forall id ensures Count(records[1..], id) <= 1 { assert Count(records, id) <= 1; }
      DistinctByCount(records[1..]);
      assert Count(records, records[0].pairId) <= 1;
      forall j | 0 < j < |records| ensures records[0].pairId != records[j].pairId {
        CountMember(records[1..], j - 1);
      }
      forall i, j | 0 <= i < j < |records| ensures records[i].pairId != records[j].pairId {
        if i > 0 { assert records[i] == records[1..][i - 1] && records[j] == records[1..][j - 1]; }
      }
    }
  }

  lemma {:induction false} CountMember(records: seq<Record>, k: nat)
    requires k < |records|
    ensures Count(records, records[k].pairId) >= 1
  {
    if k > 0 { CountMember(records[1..], k - 1); }
  }

  lemma {:induction false} InsertCount(records: seq<Record>, r: Record, id: string)
    ensures Count(Insert(records, r), id) == Count(records, id) + if r.pairId == id then 1 else 0
  {
    if records != [] {
      if AtMost(records[0].pairId, r.pairId) {
        InsertCount(records[1..], r, id);
        assert Insert(records, r)[1..] == Insert(records[1..], r);
      } else {
        assert Insert(records, r)[1..] == records;
      }
    }
  }

  lemma {:induction false} SortCount(records: seq<Record>, id: string)
    ensures Count(Sort(records), id) == Count(records, id)
  {
    if records != [] {
      var before, last := records[..|records| - 1], records[|records| - 1];
      SortCount(before, id);
      InsertCount(Sort(before), last, id);
      assert records == before + [last];
      AppendCount(before, last, id);
    }
  }

  lemma {:induction false} AppendCount(records: seq<Record>, r: Record, id: string)
    ensures Count(records + [r], id) == Count(records, id) + if r.pairId == id then 1 else 0
  {
    if records == [] {
      assert (records + [r])[1..] == [];
    } else {
      assert (records + [r])[1..] == records[1..] + [r];
      AppendCount(records[1..], r, id);
    }
  }

  lemma {:induction false} WithoutCount(records: seq<Record>, id: string, other: string)
    ensures Count(Without(records, id), other) == if other == id then 0 else Count(records, other)
  {
    if records != [] {
      WithoutCount(records[1..], id, other);
      if records[0].pairId == id {
        assert Without(records, id) == Without(records[1..], id);
      } else {
        assert Without(records, id)[1..] == Without(records[1..], id);
      }
    }
  }

  lemma {:induction false} WrittenReadsBack(records: seq<Record>)
    ensures Listed(Written(records)) == records
  {
    if records != [] {
      WrittenReadsBack(records[1..]);
      assert Written(records).raws[1..] == Written(records[1..]).raws;
      assert records == [records[0]] + records[1..];
    }
  }

  /** A save leaves a file that reads back sorted, keeps identifiers distinct, and changes
      the record of its own identifier only. */
  lemma {:induction false} SaveStep(file: File, r: Record)
    requires !file.Alien?
    ensures var after := Listed(Written(Saved(Listed(file), r)));
            && Sorted(after)
            && (DistinctIds(Listed(file)) ==> DistinctIds(after))
            && (forall id :: Find(after, id) == if id == r.pairId then Some(r) else Find(Listed(file), id))
  {
    var records := Listed(file);
    var kept := Without(records, r.pairId);
    WrittenReadsBack(Saved(records, r));
    SortSound(kept + [r]);
    forall id ensures Find(Saved(records, r), id) == if id == r.pairId then Some(r) else Find(records, id) {
      SortFind(kept + [r], id);
      FindAppend(kept, r, id);
      WithoutFind(records, r.pairId, id);
    }
    if DistinctIds(records) {
      forall id ensures Count(Saved(records, r), id) <= 1 {
        SortCount(kept + [r], id);
        AppendCount(kept, r, id);
        WithoutCount(records, r.pairId, id);
        CountBound(records, id);
      }
      DistinctByCount(Saved(records, r));
    }
  }

  // -------------------------------------------------------------------------
  // Runs
  // -------------------------------------------------------------------------

  function Run(file: File, saves: seq<Record>): (r: File)
    requires !file.Alien?
    ensures !r.Alien?
  {
    if saves == [] then file
    else Written(Saved(Listed(Run(file, saves[..|saves| - 1])), saves[|saves| - 1]))
  }

  /** The last record saved under an identifier. */
  function Latest(saves: seq<Record>, id: string): Option<Record> {
    if saves == [] then None
    else if saves[|saves| - 1].pairId == id then Some(saves[|saves| - 1])
    else Latest(saves[..|saves| - 1], id)
  }

  /** After any run of saves the records are sorted and have distinct identifiers, and each
      identifier has the last record saved under it, or the record it had before the run. */
  lemma {:induction false} RunSound(file: File, saves: seq<Record>)
    requires !file.Alien? && DistinctIds(Listed(file))
    ensures var after := Listed(Run(file, saves));
            && (saves != [] ==> Sorted(after))
            && DistinctIds(after)
            && (forall id :: Find(after, id)
                  == if Latest(saves, id).Some? then Latest(saves, id) else Find(Listed(file), id))
  {
    if saves != [] {
      RunSound(file, saves[..|saves| - 1]);
      SaveStep(Run(file, saves[..|saves| - 1]), saves[|saves| - 1]);
    }
  }

  /** Registering under the next identifier, any number of times: no record present before
      is replaced. */
  lemma {:induction false} AllocationNeverReplaces(file: File, data: seq<int>)
    requires !file.Alien?
    ensures forall id | Find(Listed(file), id).Some? ::
              Find(Listed(Allocated(file, data)), id) == Find(Listed(file), id)
    ensures DistinctIds(Listed(file)) ==> DistinctIds(Listed(Allocated(file, data)))
    ensures data != [] ==>
              var id := NextId(Listed(Allocated(file, data[..|data| - 1])));
              Find(Listed(Allocated(file, data)), id) == Some(Record(id, data[|data| - 1]))
  {
    if data != [] {
      var before := Allocated(file, data[..|data| - 1]);
      var r := Record(NextId(Listed(before)), data[|data| - 1]);
      AllocationNeverReplaces(file, data[..|data| - 1]);
      NextIdIsFresh(Listed(before));
      SaveStep(before, r);
      forall id | Find(Listed(file), id).Some?
        ensures Find(Listed(Allocated(file, data)), id) == Find(Listed(file), id)
      {
        assert Find(Listed(before), id) == Find(Listed(file), id);
        FindsMember(Listed(before), id);
      }
    }
  }

  function Allocated(file: File, data: seq<int>): (r: File)
    requires !file.Alien?
    ensures !r.Alien?
  {
    if data == [] then file
    else
      var before := Allocated(file, data[..|data| - 1]);
      Written(Saved(Listed(before), Record(NextId(Listed(before)), data[|data| - 1])))
  }

  // -------------------------------------------------------------------------
  // What a save loses
  // -------------------------------------------------------------------------

  /** The entries on disk, whether the registry can read them or not. */
  function Stored(file: File): seq<Raw>
    requires !file.Alien?
  {
    match file
    case Absent => []
    case Unreadable(held) => held
    case Pairs(raws) => raws
  }

  /** Not the record a save under an identifier replaces. */
  predicate Elsewhere(raw: Raw, id: string) {
    raw.Corrupt? || raw.record.pairId != id
  }

  /** As many copies of every other entry are stored after as before. */
  ghost predicate KeepsOthers(before: File, after: File, id: string)
    requires !before.Alien? && !after.Alien?
  {
    forall raw | raw in Stored(before) && Elsewhere(raw, id) ::
      multiset(Stored(after))[raw] == multiset(Stored(before))[raw]
  }

  /** What the registry reads back leaves out no entry but records of the identifier. */
  ghost predicate ReadsOthers(file: File, id: string)
    requires !file.Alien?
  {
    match file
    case Absent => true
    case Unreadable(held) => forall raw | raw in held :: !Elsewhere(raw, id)
    case Pairs(raws) => forall raw | raw in raws :: raw.Valid?
  }

  lemma {:induction false} ValidCopies(raws: seq<Raw>, r: Record)
    ensures multiset(ValidOnes(raws))[r] == multiset(raws)[Valid(r)]
  {
    if raws != [] {
      ValidCopies(raws[1..], r);
      assert raws == [raws[0]] + raws[1..];
    }
  }

  lemma {:induction false} WithoutCopies(records: seq<Record>, id: string, r: Record)
    requires r.pairId != id
    ensures multiset(Without(records, id))[r] == multiset(records)[r]
  {
    if records != [] {
      WithoutCopies(records[1..], id, r);
      assert records == [records[0]] + records[1..];
    }
  }

  /** A save writes another record exactly as often as it was read, and no corrupt entry. */
  lemma {:induction false} SavedCopies(file: File, r: Record, raw: Raw)
    requires !file.Alien? && Elsewhere(raw, r.pairId)
    ensures multiset(Stored(Written(Saved(Listed(file), r))))[raw]
         == if raw.Corrupt? then 0 else multiset(Listed(file))[raw.record]
  {
    var saved := Saved(Listed(file), r);
    if raw.Valid? {
      WrittenReadsBack(saved);
      ValidCopies(Written(saved).raws, raw.record);
      SortSound(Without(Listed(file), r.pairId) + [r]);
      WithoutCopies(Listed(file), r.pairId, raw.record);
    }
  }

  /** A save keeps every entry but the records it replaces if and only if it could read them
      all: a corrupt entry is gone from the file afterwards, and so is everything an
      unreadable file still held. */
  lemma {:induction false} SaveKeepsExactly(file: File, r: Record)
    requires !file.Alien?
    ensures KeepsOthers(file, Written(Saved(Listed(file), r)), r.pairId) <==> ReadsOthers(file, r.pairId)
    ensures forall raw | raw in Stored(file) && Elsewhere(raw, r.pairId) ::
              raw in Stored(Written(Saved(Listed(file), r))) <==> file.Pairs? && raw.Valid?
  {
    var after := Written(Saved(Listed(file), r));
    forall raw | raw in Stored(file) && Elsewhere(raw, r.pairId)
      ensures multiset(Stored(after))[raw]
           == if file.Pairs? && raw.Valid? then multiset(Stored(file))[raw] else 0
    {
      SavedCopies(file, r, raw);
      if file.Pairs? && raw.Valid? { ValidCopies(file.raws, raw.record); }
    }
    forall raw | raw in Stored(file) && Elsewhere(raw, r.pairId)
      ensures raw in Stored(after) <==> file.Pairs? && raw.Valid?
    {
      assert raw in Stored(after) <==> raw in multiset(Stored(after));
      assert raw in multiset(Stored(file));
    }
  }

  /** A registry that could not be read is taken for an empty one. */
  lemma {:induction false} SaveOverUnreadable(held: seq<Raw>, r: Record)
    ensures Listed(Written(Saved(Listed(Unreadable(held)), r))) == [r]
  {
    assert Without([], r.pairId) + [r] == [r];
    assert Sort([r]) == Insert(Sort([]), r) by { assert [r][..0] == []; }
    WrittenReadsBack([r]);
  }
}
