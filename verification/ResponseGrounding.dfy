/** `ResponseValidator.validate`: an accepted answer cites only what was sent. */
module ResponseGrounding {
  import opened Options
  import opened Json
  import PB = PromptBudget

  const STATIC: set<string> := {"M2", "M3", "M4", "M5", "M6", "M7", "M8", "REFERENCE", "PIPELINE"}
  const FIXED: set<string> := {"PHYSICAL_TRUTH_AVAILABLE", "PHYSICAL_ACCURACY"}

  datatype Code =
    | EmptyResponse | LeakDetected | MalformedJson | MissingAnswer | MalformedEvidence
    | UnknownMilestone | UnknownMetric | MalformedLimitations | MalformedSuggestions | ForbiddenTerminology

  datatype Reference = Reference(claim: string, milestone: string, metric: Option<string>)

  datatype Answer = Answer(
    answer: string, evidence: seq<Reference>, limitations: seq<string>, suggestions: seq<string>)

  /** `Raised` is the TypeError of iterating over a `metrics` value that is no container. */
  datatype Verdict = Accepted(answer: Answer) | Rejected(code: Code) | Raised

  /** The text functions this model takes as given; `parse` answers None for malformed JSON. */
  datatype Text = Text(
    parse: string -> Option<Json>, strip: string -> string, leaks: string -> bool, forbidden: string -> bool)

  // -------------------------------------------------------------------------
  // What may be cited
  // -------------------------------------------------------------------------

  predicate Names(item: Json, id: string) {
    item.Obj? && Get(item.fields, "metric_id") == Some(Str(id))
  }

  ghost predicate Offers(packet: seq<Field>, milestone: string, id: string) {
    var metrics := PB.Lookup(packet, milestone, "metrics");
    metrics.Some? && metrics.value.Arr? && exists item | item in metrics.value.items :: Names(item, id)
  }

  predicate ReferenceNames(packet: seq<Field>, id: string) {
    var reference := Get(packet, "reference");
    reference.Some? && Names(reference.value, id)
  }

  ghost predicate Citable(packet: seq<Field>, milestones: seq<string>, id: string) {
    id in FIXED || (exists m | m in milestones :: Offers(packet, m, id)) || ReferenceNames(packet, id)
  }

  /** `for metric in entry.get("metrics", [])` raises. */
  predicate Breaks(packet: seq<Field>, milestone: string) {
    var metrics := PB.Lookup(packet, milestone, "metrics");
    metrics.Some? && IsScalar(metrics.value) && !metrics.value.Str?
  }

  ghost predicate Raises(packet: seq<Field>, milestones: seq<string>) {
    exists m | m in milestones :: Breaks(packet, m)
  }

  /** It raises for a milestone entry that is an object whose metrics are null, a boolean or a
      number; a string or an object is iterated without effect. */
  lemma {:induction false} RaisesExactly(packet: seq<Field>, milestones: seq<string>)
    ensures Raises(packet, milestones)
       <==> exists m, v: Json | m in milestones && (v.Null? || v.Bool? || v.Number?) ::
              PB.Lookup(packet, m, "metrics") == Some(v)
  {
    if Raises(packet, milestones) {
      var m :| m in milestones && Breaks(packet, m);
      assert PB.Lookup(packet, m, "metrics") == Some(PB.Lookup(packet, m, "metrics").value);
    }
    forall m, v: Json
      | m in milestones && (v.Null? || v.Bool? || v.Number?) && PB.Lookup(packet, m, "metrics") == Some(v)
      ensures Raises(packet, milestones)
    {
      assert Breaks(packet, m);
    }
  }

  method MetricUniverse(packet: seq<Field>, milestones: seq<string>) returns (allowed: Option<set<string>>)
    ensures allowed.None? <==> Raises(packet, milestones)
    ensures allowed.Some? ==> forall id :: id in allowed.value <==> Citable(packet, milestones, id)
  {
    var ids := FIXED;
    for i := 0 to |milestones|
      invariant !Raises(packet, milestones[..i])
      invariant forall id :: id in ids <==> id in FIXED || exists m | m in milestones[..i] :: Offers(packet, m, id)
    {
      var milestone := milestones[i];
      assert milestones[..i + 1] == milestones[..i] + [milestone];
      var metrics := PB.Lookup(packet, milestone, "metrics");
      if metrics.Some? && IsScalar(metrics.value) && !metrics.value.Str? {
        assert Breaks(packet, milestone);
        return None;
      }
      var row := if metrics.Some? && metrics.value.Arr? then MetricIds(metrics.value.items) else {};
      assert forall id :: id in row <==> Offers(packet, milestone, id);
      ids := ids + row;
    }
    assert milestones[..|milestones|] == milestones;
    var reference := Get(packet, "reference");
    if reference.Some? && reference.value.Obj? {
      var id := Get(reference.value.fields, "metric_id");
      if id.Some? && id.value.Str? {
        ids := ids + {id.value.s};
      }
    }
    return Some(ids);
  }

  /** The string identifiers of the objects in a metric list. */
  function MetricIds(items: seq<Json>): (r: set<string>)
    ensures forall id :: id in r <==> exists item | item in items :: Names(item, id)
  {
    if items == [] then {}
    else
      var rest := MetricIds(items[1..]);
      var id := if items[0].Obj? then Get(items[0].fields, "metric_id") else None;
      var all := if id.Some? && id.value.Str? then {id.value.s} + rest else rest;
      assert forall x :: x in all <==> Names(items[0], x) || x in rest;
      assert forall item :: item in items <==> item == items[0] || item in items[1..];
      all
  }

  /** Only ASCII letters matter to the comparisons made with the result. */
  function Upper(s: string): string {
    seq(|s|, i requires 0 <= i < |s| => if 'a' <= s[i] <= 'z' then (s[i] as int - 32) as char else s[i])
  }

  const LOWER := "abcdefghijklmnopqrstuvwxyz"
  const UPPER := "ABCDEFGHIJKLMNOPQRSTUVWXYZ"

  /** Letter by letter: the capital of each small letter, and every other character. */
  lemma {:induction false} UpperExactly(s: string, i: nat, k: nat)
    requires i < |s| && k < 26
    ensures |Upper(s)| == |s|
    ensures s[i] == LOWER[k] ==> Upper(s)[i] == UPPER[k]
    ensures s[i] !in LOWER ==> Upper(s)[i] == s[i]
  {
    if 'a' <= s[i] <= 'z' {
      var n := s[i] as int - 'a' as int;
      assert LOWER[n] == s[i];
    }
  }

  predicate IsObject(v: Option<Json>) {
    v.Some? && v.value.Obj?
  }

  /** A static name, an entry of the packet that is an object, or a label of its pipeline
      state that spells a milestone. */
  ghost predicate MilestoneCitable(packet: seq<Field>, milestones: seq<string>, name: string) {
    || name in STATIC
    || (exists m | m in milestones :: IsObject(Get(packet, m)) && name == Upper(m))
    || (var state := Get(packet, "pipeline_state");
        IsObject(state) && exists f | f in state.value.fields :: Spells(milestones, f.key) && name == Upper(f.key))
  }

  ghost predicate Spells(milestones: seq<string>, tag: string) {
    tag in milestones || exists m | m in milestones :: Upper(m) == Upper(tag)
  }

  const NAMES: seq<string> := ["M1", "M2", "M3", "M4", "M5", "M6", "M7", "M8", "M9", "M10"]

  lemma {:induction false} UpperNames(i: nat)
    requires i < 10
    ensures Upper(PB.MILESTONES[i]) == NAMES[i]
  {
    var m := PB.MILESTONES[i];
    UpperExactly(m, 0, 12);
    assert m[0] == 'm' && LOWER[12] == 'm' && UPPER[12] == 'M';
    assert forall j | 1 <= j < |m| :: '0' <= m[j] <= '9';
  }

  /** Whether a pipeline state lists the milestone of a name, in whatever case. */
  ghost predicate StateLists(packet: seq<Field>, name: string) {
    exists labels, f: Field :: Get(packet, "pipeline_state") == Some(Obj(labels)) && f in labels && Upper(f.key) == name
  }

  /** Of the ten milestones those may be cited that the packet has an object for or whose
      pipeline state lists; the nine static names always may. */
  lemma {:induction false} MilestonesExactly(packet: seq<Field>, name: string)
    ensures MilestoneCitable(packet, PB.MILESTONES, name)
       <==> || name in {"M2", "M3", "M4", "M5", "M6", "M7", "M8", "REFERENCE", "PIPELINE"}
            || exists i :: 0 <= i < 10 && name == NAMES[i]
                           && (HasObject(packet, PB.MILESTONES[i]) || StateLists(packet, name))
  {
    if exists m | m in PB.MILESTONES :: IsObject(Get(packet, m)) && name == Upper(m) {
      var m :| m in PB.MILESTONES && IsObject(Get(packet, m)) && name == Upper(m);
      var i :| 0 <= i < 10 && PB.MILESTONES[i] == m;
      UpperNames(i);
      assert HasObject(packet, m) by { assert Get(packet, m) == Some(Obj(Get(packet, m).value.fields)); }
    }
    ListedIsSpelt(packet, name);
    forall i | 0 <= i < 10 && name == NAMES[i] && HasObject(packet, PB.MILESTONES[i])
      ensures MilestoneCitable(packet, PB.MILESTONES, name)
    {
      UpperNames(i);
    }
  }

  ghost predicate HasObject(packet: seq<Field>, key: string) {
    exists fields :: Get(packet, key) == Some(Obj(fields))
  }

  lemma {:induction false} ListedIsSpelt(packet: seq<Field>, name: string)
    ensures var state := Get(packet, "pipeline_state");
            (IsObject(state)
             && exists f | f in state.value.fields :: Spells(PB.MILESTONES, f.key) && name == Upper(f.key))
            <==> StateLists(packet, name) && exists i :: 0 <= i < 10 && name == NAMES[i]
  {
    var state := Get(packet, "pipeline_state");
    if IsObject(state) {
      assert state == Some(Obj(state.value.fields));
      forall f | f in state.value.fields
        ensures Spells(PB.MILESTONES, f.key) <==> exists i :: 0 <= i < 10 && Upper(f.key) == NAMES[i]
      {
        SpellsExactly(f.key);
      }
    }
  }

  lemma {:induction false} SpellsExactly(tag: string)
    ensures Spells(PB.MILESTONES, tag) <==> exists i :: 0 <= i < 10 && Upper(tag) == NAMES[i]
  {
    if Spells(PB.MILESTONES, tag) {
      var m :| m in PB.MILESTONES && Upper(m) == Upper(tag);
      var i :| 0 <= i < 10 && PB.MILESTONES[i] == m;
      UpperNames(i);
    }
    forall i | 0 <= i < 10 && Upper(tag) == NAMES[i] ensures Spells(PB.MILESTONES, tag) {
      UpperNames(i);
      assert PB.MILESTONES[i] in PB.MILESTONES;
    }
  }

  /** A milestone offers the string identifiers of the objects in its list of metrics. */
  lemma {:induction false} OffersExactly(packet: seq<Field>, milestone: string, id: string)
    ensures Offers(packet, milestone, id)
       <==> exists items, fields :: PB.Lookup(packet, milestone, "metrics") == Some(Arr(items)) && Obj(fields) in items
                                    && Get(fields, "metric_id") == Some(Str(id))
  {
    var metrics := PB.Lookup(packet, milestone, "metrics");
    if Offers(packet, milestone, id) {
      var item :| item in metrics.value.items && Names(item, id);
      assert metrics == Some(Arr(metrics.value.items)) && item == Obj(item.fields);
    }
    forall items, fields
      | metrics == Some(Arr(items)) && Obj(fields) in items && Get(fields, "metric_id") == Some(Str(id))
      ensures Offers(packet, milestone, id)
    {
      assert Names(Obj(fields), id);
    }
  }

  method AllowedMilestones(packet: seq<Field>, milestones: seq<string>) returns (allowed: set<string>)
    ensures forall name :: name in allowed <==> MilestoneCitable(packet, milestones, name)
  {
    allowed := STATIC;
    var uppers: set<string> := {};
    for i := 0 to |milestones|
      invariant forall name :: name in allowed <==>
                  name in STATIC || exists m | m in milestones[..i] :: IsObject(Get(packet, m)) && name == Upper(m)
      invariant forall name :: name in uppers <==> exists m | m in milestones[..i] :: name == Upper(m)
    {
      assert milestones[..i + 1] == milestones[..i] + [milestones[i]];
      if IsObject(Get(packet, milestones[i])) { allowed := allowed + {Upper(milestones[i])}; }
      uppers := uppers + {Upper(milestones[i])};
    }
    assert milestones[..|milestones|] == milestones;
    var state := Get(packet, "pipeline_state");
    if IsObject(state) {
      var labels := state.value.fields;
      ghost var before := allowed;
      for i := 0 to |labels|
        invariant forall name :: name in allowed <==>
                    name in before || exists f | f in labels[..i] :: Spells(milestones, f.key) && name == Upper(f.key)
      {
        var tag := labels[i].key;
        assert labels[..i + 1] == labels[..i] + [labels[i]];
        assert Spells(milestones, tag) <==> tag in milestones || Upper(tag) in uppers;
        if tag in milestones || Upper(tag) in uppers { allowed := allowed + {Upper(tag)}; }
      }
      assert labels[..|labels|] == labels;
    }
  }

  // -------------------------------------------------------------------------
  // Judging a response
  // -------------------------------------------------------------------------

  datatype Checked<T> = Good(value: T) | Bad(code: Code)

  predicate IsText(v: Option<Json>) {
    v.Some? && v.value.Str?
  }

  predicate Missing(v: Option<Json>) {
    v.None? || v.value == Null
  }

  /** What no judgement depends on the difference of. */
  predicate AbsentOrNull(v: Option<Json>) {
    v == None || v == Some(Null)
  }

  ghost function Judge(ref: Json, packet: seq<Field>, milestones: seq<string>, t: Text): Checked<Reference> {
    if !ref.Obj? then Bad(MalformedEvidence)
    else
      var claim, milestone, metric :=
        Get(ref.fields, "claim"), Get(ref.fields, "source_milestone"), Get(ref.fields, "source_metric");
      if !IsText(claim) || t.strip(claim.value.s) == "" then Bad(MalformedEvidence)
      else if !IsText(milestone) || !MilestoneCitable(packet, milestones, t.strip(milestone.value.s)) then
        Bad(UnknownMilestone)
      else if !Missing(metric) && (!metric.value.Str? || !Citable(packet, milestones, t.strip(metric.value.s))) then
        Bad(UnknownMetric)
      else
        Good(Reference(t.strip(claim.value.s), t.strip(milestone.value.s),
                       if Missing(metric) || metric.value.s == "" then None else Some(t.strip(metric.value.s))))
  }

  /** The references in order, or the code of the first bad one. */
  ghost function JudgeAll(
      refs: seq<Json>, packet: seq<Field>, milestones: seq<string>, t: Text, out: seq<Reference>)
    : Checked<seq<Reference>>
    decreases |refs|
  {
    if refs == [] then Good(out)
    else
      var first := Judge(refs[0], packet, milestones, t);
      if first.Bad? then Bad(first.code) else JudgeAll(refs[1..], packet, milestones, t, out + [first.value])
  }

  /** `_coerce_str_list`: None when it is no list of strings. */
  function Coerced(v: Option<Json>, t: Text): Option<seq<string>> {
    if Missing(v) then Some([])
    else if !v.value.Arr? then None
    else if exists item | item in v.value.items :: !item.Str? then None
    else Some(StrippedAll(v.value.items, t))
  }

  function StrippedAll(items: seq<Json>, t: Text): (r: seq<string>)
    requires forall item | item in items :: item.Str?
  {
    seq(|items|, i requires 0 <= i < |items| => assert items[i] in items; t.strip(items[i].s))
  }

  /** Every string inside a value; object keys do not count. */
  function Strings(v: Json): seq<string>
    decreases v, 1
  {
    match v
    case Str(s) => [s]
    case Arr(items) => ItemStrings(items)
    case Obj(fields) => FieldStrings(fields)
    case _ => []
  }

  function ItemStrings(items: seq<Json>): seq<string>
    decreases items, 0
  {
    if items == [] then [] else Strings(items[0]) + ItemStrings(items[1..])
  }

  function FieldStrings(fields: seq<Field>): seq<string>
    decreases fields, 0
  {
    if fields == [] then [] else Strings(fields[0].value) + FieldStrings(fields[1..])
  }

  /** A string occurs in a value as that value, or in an item or field value of it. */
  ghost predicate Occurs(s: string, v: Json)
    decreases v
  {
    match v
    case Str(x) => s == x
    case Arr(items) => exists item | item in items :: Occurs(s, item)
    case Obj(fields) => exists f | f in fields :: Occurs(s, f.value)
    case _ => false
  }

  lemma {:induction false} StringsExactly(v: Json, s: string)
    ensures s in Strings(v) <==> Occurs(s, v)
    decreases v, 1
  {
    match v
    case Arr(items) => ItemStringsExactly(items, s);
    case Obj(fields) => FieldStringsExactly(fields, s);
    case _ =>
  }

  lemma {:induction false} ItemStringsExactly(items: seq<Json>, s: string)
    ensures s in ItemStrings(items) <==> exists item | item in items :: Occurs(s, item)
    decreases items, 0
  {
    if items != [] {
      StringsExactly(items[0], s);
      ItemStringsExactly(items[1..], s);
      assert items == [items[0]] + items[1..];
    }
  }

  lemma {:induction false} FieldStringsExactly(fields: seq<Field>, s: string)
    ensures s in FieldStrings(fields) <==> exists f | f in fields :: Occurs(s, f.value)
    decreases fields, 0
  {
    if fields != [] {
      StringsExactly(fields[0].value, s);
      FieldStringsExactly(fields[1..], s);
      assert fields == [fields[0]] + fields[1..];
    }
  }

  /** A list of strings, each stripped; nothing counts as the empty list. */
  lemma {:induction false} CoercedExactly(v: Option<Json>, t: Text)
    ensures AbsentOrNull(v) ==> Coerced(v, t) == Some([])
    ensures !AbsentOrNull(v) ==>
              (Coerced(v, t).Some? <==> v.value.Arr? && forall item | item in v.value.items :: item.Str?)
    ensures !AbsentOrNull(v) && Coerced(v, t).Some? ==>
              && |Coerced(v, t).value| == |v.value.items|
              && forall i | 0 <= i < |v.value.items| ::
                   v.value.items[i] in v.value.items && Coerced(v, t).value[i] == t.strip(v.value.items[i].s)
  {
  }

  predicate AnyOf(q: seq<string>, p: string -> bool) {
    exists s | s in q :: p(s)
  }

  /** The references of a response: none when the key is missing or null. */
  function References(fields: seq<Field>): Option<seq<Json>> {
    var evidence := Get(fields, "evidence");
    if Missing(evidence) then Some([]) else if evidence.value.Arr? then Some(evidence.value.items) else None
  }

  lemma {:induction false} ReferencesExactly(fields: seq<Field>)
    ensures AbsentOrNull(Get(fields, "evidence")) ==> References(fields) == Some([])
    ensures !AbsentOrNull(Get(fields, "evidence")) ==>
              if Get(fields, "evidence").value.Arr? then References(fields) == Some(Get(fields, "evidence").value.items)
              else References(fields) == None
  {
  }

  /** The last checks, on the texts as the provider sent them. */
  function Concluded(answer: string, refs: seq<Json>, evidence: seq<Reference>, fields: seq<Field>, t: Text): Verdict {
    var limitations := Coerced(Get(fields, "limitations"), t);
    var suggestions := Coerced(Get(fields, "suggested_inspections"), t);
    if limitations.None? then Rejected(MalformedLimitations)
    else if suggestions.None? then Rejected(MalformedSuggestions)
    else
      var texts := ItemStrings(refs) + limitations.value + suggestions.value;
      if t.forbidden(answer) || AnyOf(texts, t.forbidden) then Rejected(ForbiddenTerminology)
      else if AnyOf(texts, t.leaks) then Rejected(LeakDetected)
      else Accepted(Answer(t.strip(answer), evidence, limitations.value, suggestions.value))
  }

  ghost function Judgement(text: string, packet: seq<Field>, milestones: seq<string>, t: Text): Verdict {
    if text == "" || t.strip(text) == "" then Rejected(EmptyResponse)
    else if t.leaks(text) then Rejected(LeakDetected)
    else
      var parsed := t.parse(text);
      if parsed.None? || !parsed.value.Obj? then Rejected(MalformedJson)
      else
        var fields := parsed.value.fields;
        var answer := Get(fields, "answer");
        if !IsText(answer) || t.strip(answer.value.s) == "" then Rejected(MissingAnswer)
        else if t.leaks(answer.value.s) then Rejected(LeakDetected)
        else
          var refs := References(fields);
          if refs.None? then Rejected(MalformedEvidence)
          else if Raises(packet, milestones) then Raised
          else
            match JudgeAll(refs.value, packet, milestones, t, [])
            case Bad(code) => Rejected(code)
            case Good(evidence) => Concluded(answer.value.s, refs.value, evidence, fields, t)
  }

  /** The evidence loop. */
  method CheckEvidence(
      refs: seq<Json>, packet: seq<Field>, milestones: seq<string>, t: Text, metrics: set<string>)
    returns (r: Checked<seq<Reference>>)
    requires forall id :: id in metrics <==> Citable(packet, milestones, id)
    ensures r == JudgeAll(refs, packet, milestones, t, [])
  {
    var out: seq<Reference> := [];
    for i := 0 to |refs|
      invariant JudgeAll(refs[i..], packet, milestones, t, out) == JudgeAll(refs, packet, milestones, t, [])
    {
      assert refs[i..][1..] == refs[i + 1..];
      var checked := CheckReference(refs[i], packet, milestones, t, metrics);
      if checked.Bad? { return Bad(checked.code); }
      out := out + [checked.value];
    }
    return Good(out);
  }

  method CheckReference(
      ref: Json, packet: seq<Field>, milestones: seq<string>, t: Text, metrics: set<string>)
    returns (r: Checked<Reference>)
    requires forall id :: id in metrics <==> Citable(packet, milestones, id)
    ensures r == Judge(ref, packet, milestones, t)
  {
    if !ref.Obj? { return Bad(MalformedEvidence); }
    var claim := Get(ref.fields, "claim");
    var milestone := Get(ref.fields, "source_milestone");
    var metric := Get(ref.fields, "source_metric");
    if !IsText(claim) || t.strip(claim.value.s) == "" { return Bad(MalformedEvidence); }
    if !IsText(milestone) { return Bad(UnknownMilestone); }
    var allowed := AllowedMilestones(packet, milestones);
    if t.strip(milestone.value.s) !in allowed { return Bad(UnknownMilestone); }
    if !Missing(metric) && (!metric.value.Str? || t.strip(metric.value.s) !in metrics) { return Bad(UnknownMetric); }
    var cited := if Missing(metric) || metric.value.s == "" then None else Some(t.strip(metric.value.s));
    return Good(Reference(t.strip(claim.value.s), t.strip(milestone.value.s), cited));
  }

  method Validate(text: string, packet: seq<Field>, milestones: seq<string>, t: Text) returns (verdict: Verdict)
    ensures verdict == Judgement(text, packet, milestones, t)
  {
    if text == "" || t.strip(text) == "" { return Rejected(EmptyResponse); }
    if t.leaks(text) { return Rejected(LeakDetected); }
    var parsed := t.parse(text);
    if parsed.None? || !parsed.value.Obj? { return Rejected(MalformedJson); }
    var fields := parsed.value.fields;
    var answer := Get(fields, "answer");
    if !IsText(answer) || t.strip(answer.value.s) == "" { return Rejected(MissingAnswer); }
    if t.leaks(answer.value.s) { return Rejected(LeakDetected); }
    var refs := References(fields);
    if refs.None? { return Rejected(MalformedEvidence); }
    var metrics := MetricUniverse(packet, milestones);
    if metrics.None? { return Raised; }
    var evidence := CheckEvidence(refs.value, packet, milestones, t, metrics.value);
    if evidence.Bad? { return Rejected(evidence.code); }
    return Concluded(answer.value.s, refs.value, evidence.value, fields, t);
  }

  // -------------------------------------------------------------------------
  // Grounding
  // -------------------------------------------------------------------------

  ghost predicate Grounded(packet: seq<Field>, milestones: seq<string>, e: Reference) {
    && e.claim != ""
    && MilestoneCitable(packet, milestones, e.milestone)
    && (e.metric.Some? ==> Citable(packet, milestones, e.metric.value))
  }

  lemma {:induction false} JudgeAllGrounded(
      refs: seq<Json>, packet: seq<Field>, milestones: seq<string>, t: Text, out: seq<Reference>)
    requires forall e | e in out :: Grounded(packet, milestones, e)
    ensures var r := JudgeAll(refs, packet, milestones, t, out);
            r.Good? ==> |r.value| == |out| + |refs| && forall e | e in r.value :: Grounded(packet, milestones, e)
    decreases |refs|
  {
    if refs != [] {
      var first := Judge(refs[0], packet, milestones, t);
      if first.Good? { JudgeAllGrounded(refs[1..], packet, milestones, t, out + [first.value]); }
    }
  }

  /** All references pass exactly when each does on its own. */
  lemma {:induction false} JudgeAllExactly(
      refs: seq<Json>, packet: seq<Field>, milestones: seq<string>, t: Text, out: seq<Reference>)
    ensures JudgeAll(refs, packet, milestones, t, out).Good?
       <==> forall ref | ref in refs :: Judge(ref, packet, milestones, t).Good?
    decreases |refs|
  {
    if refs != [] {
      var first := Judge(refs[0], packet, milestones, t);
      assert refs == [refs[0]] + refs[1..];
      if first.Good? { JudgeAllExactly(refs[1..], packet, milestones, t, out + [first.value]); }
      else { assert refs[0] in refs; }
    }
  }

  /** An accepted answer has one grounded reference for each one the provider gave. */
  lemma {:induction false} AcceptedIsGrounded(text: string, packet: seq<Field>, milestones: seq<string>, t: Text)
    requires Judgement(text, packet, milestones, t).Accepted?
    ensures var parsed, answer := t.parse(text), Judgement(text, packet, milestones, t).answer;
            && parsed.Some? && parsed.value.Obj? && References(parsed.value.fields).Some?
            && |answer.evidence| == |References(parsed.value.fields).value|
            && answer.answer != ""
            && forall e | e in answer.evidence :: Grounded(packet, milestones, e)
  {
    JudgeAllGrounded(References(t.parse(text).value.fields).value, packet, milestones, t, []);
  }

  /** A reference of an accepted answer repeats the one given, stripped. */
  ghost predicate Repeats(ref: Json, e: Reference, t: Text) {
    && ref.Obj?
    && (exists x :: Get(ref.fields, "claim") == Some(Str(x)) && e.claim == t.strip(x))
    && (exists x :: Get(ref.fields, "source_milestone") == Some(Str(x)) && e.milestone == t.strip(x))
    && (if AbsentOrNull(Get(ref.fields, "source_metric")) then e.metric == None
        else exists x :: Get(ref.fields, "source_metric") == Some(Str(x))
                         && e.metric == if x == "" then None else Some(t.strip(x)))
  }

  lemma {:induction false} JudgedRepeats(ref: Json, packet: seq<Field>, milestones: seq<string>, t: Text)
    ensures Judge(ref, packet, milestones, t).Good? ==> Repeats(ref, Judge(ref, packet, milestones, t).value, t)
  {
    if Judge(ref, packet, milestones, t).Good? {
      assert Get(ref.fields, "claim") == Some(Str(Get(ref.fields, "claim").value.s));
      assert Get(ref.fields, "source_milestone") == Some(Str(Get(ref.fields, "source_milestone").value.s));
      var metric := Get(ref.fields, "source_metric");
      if !AbsentOrNull(metric) { assert metric == Some(Str(metric.value.s)); }
    }
  }

  lemma {:induction false} AllRepeat(
      refs: seq<Json>, packet: seq<Field>, milestones: seq<string>, t: Text, out: seq<Reference>)
    ensures var r := JudgeAll(refs, packet, milestones, t, out);
            r.Good? ==> |r.value| == |out| + |refs| && r.value[..|out|] == out
                        && forall i | 0 <= i < |refs| :: Repeats(refs[i], r.value[|out| + i], t)
    decreases |refs|
  {
    if refs != [] {
      var first := Judge(refs[0], packet, milestones, t);
      JudgedRepeats(refs[0], packet, milestones, t);
      if first.Good? {
        var next, r := out + [first.value], JudgeAll(refs, packet, milestones, t, out);
        AllRepeat(refs[1..], packet, milestones, t, next);
        if r.Good? {
          forall i | 0 <= i < |refs| ensures Repeats(refs[i], r.value[|out| + i], t) {
            if i > 0 { assert refs[i] == refs[1..][i - 1]; } else { assert r.value[|out|] == r.value[..|next|][|out|]; }
          }
          assert r.value[..|out|] == r.value[..|next|][..|out|];
        }
      }
    }
  }

  /** An accepted answer says what the provider said, each text stripped: the answer, one
      reference for each given one in order, the limitations and the suggestions. */
  lemma {:induction false} AcceptedIsFaithful(text: string, packet: seq<Field>, milestones: seq<string>, t: Text)
    requires Judgement(text, packet, milestones, t).Accepted?
    ensures t.parse(text).Some? && t.parse(text).value.Obj?
    ensures var fields, a := t.parse(text).value.fields, Judgement(text, packet, milestones, t).answer;
            && (exists x :: Get(fields, "answer") == Some(Str(x)) && a.answer == t.strip(x))
            && References(fields).Some? && |a.evidence| == |References(fields).value|
            && (forall i | 0 <= i < |a.evidence| :: Repeats(References(fields).value[i], a.evidence[i], t))
            && Coerced(Get(fields, "limitations"), t) == Some(a.limitations)
            && Coerced(Get(fields, "suggested_inspections"), t) == Some(a.suggestions)
  {
    var fields := t.parse(text).value.fields;
    assert Get(fields, "answer") == Some(Str(Get(fields, "answer").value.s));
    AllRepeat(References(fields).value, packet, milestones, t, []);
  }

  /** The defect a rejection of one reference names. */
  ghost predicate RefHas(code: Code, ref: Json, packet: seq<Field>, milestones: seq<string>, t: Text) {
    match code
    case MalformedEvidence =>
      !ref.Obj? || !exists x :: Get(ref.fields, "claim") == Some(Str(x)) && t.strip(x) != ""
    case UnknownMilestone =>
      ref.Obj? && !exists x :: Get(ref.fields, "source_milestone") == Some(Str(x))
                               && MilestoneCitable(packet, milestones, t.strip(x))
    case UnknownMetric =>
      && ref.Obj? && !AbsentOrNull(Get(ref.fields, "source_metric"))
      && !exists x :: Get(ref.fields, "source_metric") == Some(Str(x)) && Citable(packet, milestones, t.strip(x))
    case _ => false
  }

  /** The defect a rejection names. */
  ghost predicate Has(code: Code, text: string, packet: seq<Field>, milestones: seq<string>, t: Text) {
    var parsed := t.parse(text);
    match code
    case EmptyResponse => text == "" || t.strip(text) == ""
    case MalformedJson => parsed.None? || !parsed.value.Obj?
    case _ =>
      || (code == LeakDetected && t.leaks(text))
      || (parsed.Some? && parsed.value.Obj? && FieldsHave(code, parsed.value.fields, packet, milestones, t))
  }

  ghost predicate FieldsHave(
      code: Code, fields: seq<Field>, packet: seq<Field>, milestones: seq<string>, t: Text)
  {
    var evidence := Get(fields, "evidence");
    match code
    case MissingAnswer => !exists x :: Get(fields, "answer") == Some(Str(x)) && t.strip(x) != ""
    case MalformedEvidence =>
      || (!AbsentOrNull(evidence) && !evidence.value.Arr?)
      || SomeRefHas(code, evidence, packet, milestones, t)
    case UnknownMilestone => SomeRefHas(code, evidence, packet, milestones, t)
    case UnknownMetric => SomeRefHas(code, evidence, packet, milestones, t)
    case MalformedLimitations => NoStringList(Get(fields, "limitations"))
    case MalformedSuggestions => NoStringList(Get(fields, "suggested_inspections"))
    case ForbiddenTerminology => SomeText(fields, t, t.forbidden)
    case LeakDetected => SomeText(fields, t, t.leaks)
    case _ => false
  }

  ghost predicate SomeRefHas(
      code: Code, evidence: Option<Json>, packet: seq<Field>, milestones: seq<string>, t: Text)
  {
    && evidence.Some? && evidence.value.Arr?
    && exists ref | ref in evidence.value.items :: RefHas(code, ref, packet, milestones, t)
  }

  ghost predicate NoStringList(v: Option<Json>) {
    !AbsentOrNull(v) && (!v.value.Arr? || exists item | item in v.value.items :: !item.Str?)
  }

  /** The answer, a string inside the evidence, or a stripped limitation or suggestion. */
  ghost predicate SomeText(fields: seq<Field>, t: Text, p: string -> bool) {
    || (exists x :: Get(fields, "answer") == Some(Str(x)) && p(x))
    || (References(fields).Some? && exists s, ref | ref in References(fields).value && Occurs(s, ref) :: p(s))
    || (Coerced(Get(fields, "limitations"), t).Some? && AnyOf(Coerced(Get(fields, "limitations"), t).value, p))
    || (Coerced(Get(fields, "suggested_inspections"), t).Some?
        && AnyOf(Coerced(Get(fields, "suggested_inspections"), t).value, p))
  }

  lemma {:induction false} JudgedHas(ref: Json, packet: seq<Field>, milestones: seq<string>, t: Text)
    ensures var r := Judge(ref, packet, milestones, t); r.Bad? ==> RefHas(r.code, ref, packet, milestones, t)
  {
  }

  lemma {:induction false} SomeBad(
      refs: seq<Json>, packet: seq<Field>, milestones: seq<string>, t: Text, out: seq<Reference>)
    ensures var r := JudgeAll(refs, packet, milestones, t, out);
            r.Bad? ==> exists ref | ref in refs :: RefHas(r.code, ref, packet, milestones, t)
    decreases |refs|
  {
    if refs != [] {
      JudgedHas(refs[0], packet, milestones, t);
      var first := Judge(refs[0], packet, milestones, t);
      if first.Bad? { assert refs[0] in refs; } else { SomeBad(refs[1..], packet, milestones, t, out + [first.value]); }
    }
  }

  lemma {:induction false} ConcludedHas(
      answer: string, refs: seq<Json>, evidence: seq<Reference>, fields: seq<Field>, packet: seq<Field>,
      milestones: seq<string>, t: Text)
    requires Get(fields, "answer") == Some(Str(answer)) && References(fields) == Some(refs)
    ensures var v := Concluded(answer, refs, evidence, fields, t);
            v.Rejected? ==> FieldsHave(v.code, fields, packet, milestones, t)
  {
    var limitations := Coerced(Get(fields, "limitations"), t);
    var suggestions := Coerced(Get(fields, "suggested_inspections"), t);
    CoercedExactly(Get(fields, "limitations"), t);
    CoercedExactly(Get(fields, "suggested_inspections"), t);
    if limitations.Some? && suggestions.Some? {
      TextSource(refs, limitations.value, suggestions.value, fields, t, t.forbidden);
      TextSource(refs, limitations.value, suggestions.value, fields, t, t.leaks);
    }
  }

  lemma {:induction false} TextSource(
      refs: seq<Json>, limitations: seq<string>, suggestions: seq<string>, fields: seq<Field>, t: Text,
      p: string -> bool)
    requires References(fields) == Some(refs)
    requires Coerced(Get(fields, "limitations"), t) == Some(limitations)
    requires Coerced(Get(fields, "suggested_inspections"), t) == Some(suggestions)
    ensures AnyOf(ItemStrings(refs) + limitations + suggestions, p) ==> SomeText(fields, t, p)
  {
    if AnyOf(ItemStrings(refs) + limitations + suggestions, p) {
      var s :| s in ItemStrings(refs) + limitations + suggestions && p(s);
      ItemStringsExactly(refs, s);
      if s in limitations { assert AnyOf(limitations, p); }
      else if s in suggestions { assert AnyOf(suggestions, p); }
    }
  }

  /** A rejection names a defect that the response has. */
  lemma {:induction false} RejectionIsTrue(text: string, packet: seq<Field>, milestones: seq<string>, t: Text)
    requires Judgement(text, packet, milestones, t).Rejected?
    ensures Has(Judgement(text, packet, milestones, t).code, text, packet, milestones, t)
  {
    var parsed := t.parse(text);
    if parsed.Some? && parsed.value.Obj? {
      var fields := parsed.value.fields;
      var answer, refs := Get(fields, "answer"), References(fields);
      ReferencesExactly(fields);
      if IsText(answer) {
        assert answer == Some(Str(answer.value.s));
        if refs.Some? {
          SomeBad(refs.value, packet, milestones, t, []);
          var all := JudgeAll(refs.value, packet, milestones, t, []);
          if all.Good? { ConcludedHas(answer.value.s, refs.value, all.value, fields, packet, milestones, t); }
        }
      }
    }
  }

  /** What a parsed response must be like. */
  ghost predicate Acceptable(fields: seq<Field>, packet: seq<Field>, milestones: seq<string>, t: Text) {
    var answer, refs := Get(fields, "answer"), References(fields);
    var limitations := Coerced(Get(fields, "limitations"), t);
    var suggestions := Coerced(Get(fields, "suggested_inspections"), t);
    && IsText(answer) && t.strip(answer.value.s) != "" && !t.leaks(answer.value.s) && !t.forbidden(answer.value.s)
    && refs.Some? && (forall ref | ref in refs.value :: Judge(ref, packet, milestones, t).Good?)
    && limitations.Some? && suggestions.Some?
    && forall s | s in ItemStrings(refs.value) + limitations.value + suggestions.value :: !t.forbidden(s) && !t.leaks(s)
  }

  /** A response is accepted exactly when it is not blank, leaks nothing, and parses to an
      acceptable object, and the packet's metrics can be read. */
  lemma {:induction false} AcceptedExactly(text: string, packet: seq<Field>, milestones: seq<string>, t: Text)
    ensures Judgement(text, packet, milestones, t).Accepted?
       <==> && text != "" && t.strip(text) != "" && !t.leaks(text)
            && t.parse(text).Some? && t.parse(text).value.Obj?
            && !Raises(packet, milestones)
            && Acceptable(t.parse(text).value.fields, packet, milestones, t)
  {
    if t.parse(text).Some? && t.parse(text).value.Obj? && References(t.parse(text).value.fields).Some? {
      JudgeAllExactly(References(t.parse(text).value.fields).value, packet, milestones, t, []);
    }
  }

  /** Entries no removable slot names lose nothing. */
  lemma {:induction false} NeverDropped(
      slots: seq<PB.Slot>, packet: seq<Field>, used: seq<Field>, dropped: seq<PB.Slot>, key: string)
    requires PB.OnlyDropped(slots, packet, used, dropped)
    requires forall s | s in slots :: s.milestone != key
    ensures Get(used, key) == Get(packet, key)
  {
    assert PB.Untouched(key, dropped);
  }

  lemma {:induction false} NoSuchMilestone(milestones: seq<string>, keys: seq<string>, key: string)
    requires key !in milestones
    ensures forall s | s in PB.Pairs(milestones, keys) :: s.milestone != key
  {
    forall s | s in PB.Pairs(milestones, keys) ensures s.milestone != key {
      PB.PairsExactly(milestones, keys, s);
    }
  }

  /** One of the two fixed identifiers, the packet's reference metric, or a metric of a
      milestone whose metrics were not dropped. */
  ghost predicate Sent(packet: seq<Field>, milestones: seq<string>, dropped: seq<PB.Slot>, id: string) {
    || id in FIXED
    || ReferenceNames(packet, id)
    || exists m | m in milestones :: PB.Slot(m, "metrics") !in dropped && Offers(packet, m, id)
  }

  lemma {:induction false} UniverseAfter(
      slots: seq<PB.Slot>, packet: seq<Field>, used: seq<Field>, dropped: seq<PB.Slot>, milestones: seq<string>,
      id: string)
    requires PB.OnlyDropped(slots, packet, used, dropped)
    requires Get(used, "reference") == Get(packet, "reference")
    ensures Citable(used, milestones, id) <==> Sent(packet, milestones, dropped, id)
  {
    forall m ensures Offers(used, m, id) <==> PB.Slot(m, "metrics") !in dropped && Offers(packet, m, id) {
      assert PB.Lookup(used, m, "metrics")
          == if PB.Slot(m, "metrics") in dropped then None else PB.Lookup(packet, m, "metrics");
    }
  }

  lemma {:induction false} EntryKept(packet: seq<Field>, slots: seq<PB.Slot>, budget: int, passes: nat, key: string)
    requires |slots| < passes && forall s | s in slots :: s.milestone != key
    ensures var (used, dropped) := PB.FitFrom(PB.Trimming(slots, budget), packet, [], passes);
            PB.OnlyDropped(slots, packet, used, dropped) && Get(used, key) == Get(packet, key)
  {
    PB.TrimSound(packet, slots, budget, passes);
    var (used, dropped) := PB.FitFrom(PB.Trimming(slots, budget), packet, [], passes);
    NeverDropped(slots, packet, used, dropped, key);
  }

  lemma {:induction false} ReferenceIsNoMilestone()
    ensures forall s | s in PB.Optional() :: s.milestone != "reference"
  {
    NoSuchMilestone(PB.MILESTONES, PB.KEYS, "reference");
  }

  lemma {:induction false} ReferenceKept(packet: seq<Field>, budget: int)
    ensures PB.OnlyDropped(PB.Optional(), packet, PB.Fitted(packet, budget).0, PB.Fitted(packet, budget).1)
    ensures Get(PB.Fitted(packet, budget).0, "reference") == Get(packet, "reference")
  {
    PB.OptionalLength();
    ReferenceIsNoMilestone();
    EntryKept(packet, PB.Optional(), budget, PB.PASSES, "reference");
  }

  /** Trimming removes the metrics of the dropped milestones from what may be cited, and
      nothing else. */
  lemma {:induction false} TrimmedUniverse(packet: seq<Field>, budget: int, id: string)
    ensures Citable(PB.Fitted(packet, budget).0, PB.MILESTONES, id)
       <==> Sent(packet, PB.MILESTONES, PB.Fitted(packet, budget).1, id)
  {
    ReferenceKept(packet, budget);
    UniverseAfter(PB.Optional(), packet, PB.Fitted(packet, budget).0, PB.Fitted(packet, budget).1, PB.MILESTONES, id);
  }

  /** Whatever metric an accepted answer cites was in the trimmed packet that was sent. */
  lemma {:induction false} CitedMetricWasSent(packet: seq<Field>, budget: int, text: string, t: Text, e: Reference)
    requires var verdict := Judgement(text, PB.Fitted(packet, budget).0, PB.MILESTONES, t);
             verdict.Accepted? && e in verdict.answer.evidence && e.metric.Some?
    ensures Citable(PB.Fitted(packet, budget).0, PB.MILESTONES, e.metric.value)
    ensures Sent(packet, PB.MILESTONES, PB.Fitted(packet, budget).1, e.metric.value)
  {
    AcceptedIsGrounded(text, PB.Fitted(packet, budget).0, PB.MILESTONES, t);
    TrimmedUniverse(packet, budget, e.metric.value);
  }
}
