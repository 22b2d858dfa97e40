/** The task event log: when two Velero payloads count as the same observation, and what the
    de-duplicating writer keeps out of the log. */
module TaskEvents {
  import opened Text

  // ---------------------------------------------------------------- payload values

  /** A decoded JSON value. A missing key reads as `Nil`. */
  datatype Value =
    | Nil
    | Text(text: string)
    | Number(number: int)
    | Flag(flag: bool)
    | Object(fields: map<string, Value>)
    | List(items: seq<Value>)

  type Fields = map<string, Value>

  function Get(m: Fields, k: string): Value {
    if k in m then m[k] else Nil
  }

  /** `mapFromAny`: anything but an object is an empty map. */
  function AsMap(v: Value): Fields {
    if v.Object? then v.fields else map[]
  }

  /** `sliceFromAny`: anything but a list is no list. */
  function AsSlice(v: Value): seq<Value> {
    if v.List? then v.items else []
  }

  /** The formatting functions the code calls: `fmt.Sprint`, `json.Marshal` of one projected item and
      `json.Marshal` of the counters together with the sorted items. */
  datatype Codec = Codec(
    sprint: Value -> string,
    item: seq<Value> -> string,
    state: (seq<Value>, seq<string>) -> string)

  /** The encodings tell different items, and different states, apart. */
  ghost predicate Injective(c: Codec) {
    && (forall a, b :: c.item(a) == c.item(b) ==> a == b)
    && (forall a, x, b, y :: c.state(a, x) == c.state(b, y) ==> a == b && x == y)
  }

  const COUNTERS: seq<string> := ["discoveryComplete", "discoveryCount", "bytesDone", "totalBytes", "knownTotal",
    "allTotalsKnown", "itemCount", "runningCount", "completedCount", "failedCount"]

  const ITEM_KEYS: seq<string> := ["kind", "name", "phase", "startedAt", "volume", "pod", "namespace",
    "bytesDone", "totalBytes", "knownTotal", "message", "errorCode"]

  /** The values under a list of keys. */
  function Project(m: Fields, keys: seq<string>): (r: seq<Value>)
    ensures |r| == |keys| && forall i :: 0 <= i < |keys| ==> r[i] == Get(m, keys[i])
  {
    seq(|keys|, i requires 0 <= i < |keys| => Get(m, keys[i]))
  }

  function Counters(progress: Fields): seq<Value> {
    Project(progress, COUNTERS)
  }

  /** The projected items of a report, in the order in which it lists them. */
  function Items(progress: Fields): (r: seq<seq<Value>>)
    ensures |r| == |AsSlice(Get(progress, "items"))|
  {
    var raw := AsSlice(Get(progress, "items"));
    seq(|raw|, i requires 0 <= i < |raw| => Project(AsMap(raw[i]), ITEM_KEYS))
  }

  function Encode(c: Codec, items: seq<seq<Value>>): (r: seq<string>)
    ensures |r| == |items| && forall i :: 0 <= i < |items| ==> r[i] == c.item(items[i])
  {
    seq(|items|, i requires 0 <= i < |items| => c.item(items[i]))
  }

  function VolumeState(c: Codec, progress: Fields): string {
    c.state(Counters(progress), SortStrings(Encode(c, Items(progress))))
  }

  method VolumeProgressState(c: Codec, progress: Fields) returns (state: string)
    ensures state == VolumeState(c, progress)
  {
    hide SortStrings, Counters, Project;
    var counters := Counters(progress);
    var encoded: seq<string> := [];
    var raw := AsSlice(Get(progress, "items"));
    for i := 0 to |raw|
      invariant |encoded| == i
      invariant forall j :: 0 <= j < i ==> encoded[j] == c.item(Items(progress)[j])
    {
      var stable := Project(AsMap(raw[i]), ITEM_KEYS);
      encoded := encoded + [c.item(stable)];
    }
    assert encoded == Encode(c, Items(progress));
    state := c.state(counters, SortStrings(encoded));
  }

  // ---------------------------------------------------------------- equal state

  lemma {:induction false} EncodeCounts(c: Codec, xs: seq<seq<Value>>, x: seq<Value>)
    requires Injective(c)
    ensures multiset(Encode(c, xs))[c.item(x)] == multiset(xs)[x]
  {
    if xs != [] {
      var n := |xs| - 1;
      EncodeCounts(c, xs[..n], x);
      assert xs == xs[..n] + [xs[n]];
      assert Encode(c, xs) == Encode(c, xs[..n]) + [c.item(xs[n])];
    }
  }

  lemma EncodeSameMultiset(c: Codec, xs: seq<seq<Value>>, ys: seq<seq<Value>>)
    requires Injective(c)
    ensures multiset(Encode(c, xs)) == multiset(Encode(c, ys)) <==> multiset(xs) == multiset(ys)
  {
    if multiset(Encode(c, xs)) == multiset(Encode(c, ys)) {
      forall x ensures multiset(xs)[x] == multiset(ys)[x] {
        EncodeCounts(c, xs, x);
        EncodeCounts(c, ys, x);
      }
    }
    if multiset(xs) == multiset(ys) {
      forall e ensures multiset(Encode(c, xs))[e] == multiset(Encode(c, ys))[e] {
        if exists x :: c.item(x) == e {
          var x :| c.item(x) == e;
          EncodeCounts(c, xs, x);
          EncodeCounts(c, ys, x);
        } else {
          NotEncoded(c, xs, e);
          NotEncoded(c, ys, e);
        }
      }
    }
  }

  lemma NotEncoded(c: Codec, xs: seq<seq<Value>>, e: string)
    requires !exists x :: c.item(x) == e
    ensures multiset(Encode(c, xs))[e] == 0
  {
    var es := Encode(c, xs);
    assert e !in es;
  }

  /** Two volume-progress reports have the same state exactly when their counters agree and their
      projected items are the same multiset: the order of the items does not matter. */
  lemma StateEqualIff(c: Codec, p: Fields, q: Fields)
    requires Injective(c)
    ensures VolumeState(c, p) == VolumeState(c, q) <==>
            Counters(p) == Counters(q) && multiset(Items(p)) == multiset(Items(q))
  {
    hide SortStrings, Counters, Items;
    var a, b := Encode(c, Items(p)), Encode(c, Items(q));
    EncodeSameMultiset(c, Items(p), Items(q));
    assert SortStrings(a) == SortStrings(b) <==> multiset(a) == multiset(b) by {
      assert multiset(SortStrings(a)) == multiset(a) && multiset(SortStrings(b)) == multiset(b);
      if multiset(a) == multiset(b) { SortedUnique(SortStrings(a), SortStrings(b)); }
    }
  }

  /** The counters that count. */
  lemma CountersAgreeIff(p: Fields, q: Fields)
    ensures Counters(p) == Counters(q) <==>
            && Get(p, "discoveryComplete") == Get(q, "discoveryComplete") && Get(p, "discoveryCount") == Get(q, "discoveryCount")
            && Get(p, "bytesDone") == Get(q, "bytesDone") && Get(p, "totalBytes") == Get(q, "totalBytes")
            && Get(p, "knownTotal") == Get(q, "knownTotal") && Get(p, "allTotalsKnown") == Get(q, "allTotalsKnown")
            && Get(p, "itemCount") == Get(q, "itemCount") && Get(p, "runningCount") == Get(q, "runningCount")
            && Get(p, "completedCount") == Get(q, "completedCount") && Get(p, "failedCount") == Get(q, "failedCount")
  {
    hide Get;
    ProjectAgreeIff(p, q, COUNTERS);
    assert COUNTERS[0] == "discoveryComplete" && COUNTERS[1] == "discoveryCount" && COUNTERS[2] == "bytesDone" && COUNTERS[3] == "totalBytes" && COUNTERS[4] == "knownTotal";
    assert COUNTERS[5] == "allTotalsKnown" && COUNTERS[6] == "itemCount" && COUNTERS[7] == "runningCount" && COUNTERS[8] == "completedCount" && COUNTERS[9] == "failedCount";
  }

  /** The fields of an item that count. */
  lemma ItemsAgreeIff(a: Fields, b: Fields)
    ensures Project(a, ITEM_KEYS) == Project(b, ITEM_KEYS) <==>
            && Get(a, "kind") == Get(b, "kind") && Get(a, "name") == Get(b, "name") && Get(a, "phase") == Get(b, "phase")
            && Get(a, "startedAt") == Get(b, "startedAt") && Get(a, "volume") == Get(b, "volume") && Get(a, "pod") == Get(b, "pod")
            && Get(a, "namespace") == Get(b, "namespace") && Get(a, "bytesDone") == Get(b, "bytesDone")
            && Get(a, "totalBytes") == Get(b, "totalBytes") && Get(a, "knownTotal") == Get(b, "knownTotal")
            && Get(a, "message") == Get(b, "message") && Get(a, "errorCode") == Get(b, "errorCode")
  {
    hide Get;
    ProjectAgreeIff(a, b, ITEM_KEYS);
    assert ITEM_KEYS[0] == "kind" && ITEM_KEYS[1] == "name" && ITEM_KEYS[2] == "phase" && ITEM_KEYS[3] == "startedAt" && ITEM_KEYS[4] == "volume" && ITEM_KEYS[5] == "pod";
    assert ITEM_KEYS[6] == "namespace" && ITEM_KEYS[7] == "bytesDone" && ITEM_KEYS[8] == "totalBytes" && ITEM_KEYS[9] == "knownTotal" && ITEM_KEYS[10] == "message" && ITEM_KEYS[11] == "errorCode";
  }

  lemma ProjectAgreeIff(a: Fields, b: Fields, keys: seq<string>)
    ensures Project(a, keys) == Project(b, keys) <==> forall i :: 0 <= i < |keys| ==> Get(a, keys[i]) == Get(b, keys[i])
  {
    hide Get;
    if Project(a, keys) == Project(b, keys) {
      forall i | 0 <= i < |keys| ensures Get(a, keys[i]) == Get(b, keys[i]) {
        assert Project(a, keys)[i] == Project(b, keys)[i];
      }
    }
  }

  /** Every listed item is projected, in its place. */
  lemma ItemAt(progress: Fields, i: nat)
    requires "items" in progress && progress["items"].List? && i < |progress["items"].items|
    ensures |Items(progress)| == |progress["items"].items|
    ensures Items(progress)[i] == Project(if progress["items"].items[i].Object? then progress["items"].items[i].fields else map[], ITEM_KEYS)
  {
    hide Project;
  }

  // ---------------------------------------------------------------- the same observation

  predicate IsTerminalPhase(phase: string) {
    phase in {"Completed", "PartiallyFailed", "Failed", "FailedValidation", "Canceled"}
  }

  function Field(c: Codec, m: Fields, k: string): string {
    c.sprint(Get(m, k))
  }

  function VolumeOf(m: Fields): Fields {
    AsMap(Get(m, "volumeProgress"))
  }

  predicate SameVeleroPayload(c: Codec, existing: Fields, incoming: Fields) {
    if |existing| == 0 || |incoming| == 0 then false
    else if Field(c, existing, "name") == "" || Field(c, existing, "name") != Field(c, incoming, "name") then false
    else if Field(c, existing, "kind") != "" && Field(c, incoming, "kind") != "" && Field(c, existing, "kind") != Field(c, incoming, "kind") then false
    else if VolumeState(c, VolumeOf(existing)) != VolumeState(c, VolumeOf(incoming)) then false
    else if Field(c, existing, "resourceVersion") != "" && Field(c, incoming, "resourceVersion") != "" then
      Field(c, existing, "resourceVersion") == Field(c, incoming, "resourceVersion")
    else if Field(c, existing, "phase") != Field(c, incoming, "phase") then false
    else if IsTerminalPhase(Field(c, incoming, "phase")) then true
    else if |VolumeOf(existing)| == 0 || |VolumeOf(incoming)| == 0 then false
    else
      && Field(c, VolumeOf(existing), "bytesDone") == Field(c, VolumeOf(incoming), "bytesDone")
      && Field(c, VolumeOf(existing), "totalBytes") == Field(c, VolumeOf(incoming), "totalBytes")
      && Field(c, VolumeOf(existing), "knownTotal") == Field(c, VolumeOf(incoming), "knownTotal")
  }

  /** The volume progress of a payload is the object under that key. */
  lemma VolumeOfIs(m: Fields)
    ensures VolumeOf(m) == if "volumeProgress" in m && m["volumeProgress"].Object? then m["volumeProgress"].fields else map[]
  {
  }

  /** Which of two payloads came first does not matter. */
  lemma SameIsSymmetric(c: Codec, a: Fields, b: Fields)
    ensures SameVeleroPayload(c, a, b) == SameVeleroPayload(c, b, a)
  {
    hide VolumeState;
  }

  /** When two payloads are the same observation, given encodings that tell states apart: neither is empty; they
      have the same name, and no different kinds; their volume progress is in the same state; and either both
      have a resource version and it is the same, or one has none and they are in the same phase, which is
      terminal or has volume progress in both. Comparing the byte counters once more decides nothing. */
  lemma SameObservationIff(c: Codec, a: Fields, b: Fields)
    requires Injective(c)
    ensures SameVeleroPayload(c, a, b) <==>
            && a != map[] && b != map[]
            && Field(c, a, "name") == Field(c, b, "name") != ""
            && (Field(c, a, "kind") == Field(c, b, "kind") || Field(c, a, "kind") == "" || Field(c, b, "kind") == "")
            && Counters(VolumeOf(a)) == Counters(VolumeOf(b)) && multiset(Items(VolumeOf(a))) == multiset(Items(VolumeOf(b)))
            && (if Field(c, a, "resourceVersion") != "" && Field(c, b, "resourceVersion") != ""
                then Field(c, a, "resourceVersion") == Field(c, b, "resourceVersion")
                else
                  && Field(c, a, "phase") == Field(c, b, "phase")
                  && (Field(c, a, "phase") in {"Completed", "PartiallyFailed", "Failed", "FailedValidation", "Canceled"}
                      || (VolumeOf(a) != map[] && VolumeOf(b) != map[])))
  {
    hide VolumeState, Counters, Items, VolumeOf, Get;
    StateEqualIff(c, VolumeOf(a), VolumeOf(b));
    if Counters(VolumeOf(a)) == Counters(VolumeOf(b)) { CountersAgreeIff(VolumeOf(a), VolumeOf(b)); }
  }

  /** `fmt.Sprint` of a missing value is `<nil>`, which is not empty. So when neither payload carries a
      resource version, the comparison stops there: payloads of one name and kind with the same volume
      state are the same observation whatever their phases. */
  lemma PhaseIgnoredWithoutResourceVersion(c: Codec, a: Fields, b: Fields)
    requires c.sprint(Nil) == "<nil>" && a != map[] && b != map[]
    requires "resourceVersion" !in a && "resourceVersion" !in b
    ensures SameVeleroPayload(c, a, b) <==>
            && Field(c, a, "name") != "" && Field(c, a, "name") == Field(c, b, "name")
            && (Field(c, a, "kind") == "" || Field(c, b, "kind") == "" || Field(c, a, "kind") == Field(c, b, "kind"))
            && VolumeState(c, VolumeOf(a)) == VolumeState(c, VolumeOf(b))
  {
    hide VolumeState;
  }

  // ---------------------------------------------------------------- the log

  datatype Event = Event(reason: string, velero: Fields)

  /** The reader of the log takes `e` for a repetition of `f`. */
  predicate Repeats(c: Codec, e: Event, f: Event) {
    e.reason == f.reason && SameVeleroPayload(c, f.velero, e.velero)
  }

  class TaskEventLog {
    const codec: Codec
    var events: seq<Event>

    constructor (c: Codec)
      ensures codec == c && events == []
    {
      codec, events := c, [];
    }

    /** No entry repeats another one. */
    ghost predicate NoRepetition()
      reads this
    {
      forall i, j :: 0 <= i < |events| && 0 <= j < |events| && i != j ==> !Repeats(codec, events[i], events[j])
    }

    /** Appends the event unless an entry with the same reason already records the observation.
        `listed` says whether the log could be read. */
    method AddIfChanged(input: Event, listed: bool) returns (added: bool)
      modifies this
      ensures added <==> input.velero == map[] || !listed || forall e <- old(events) :: !Repeats(codec, input, e)
      ensures added <==> input.velero == map[] || !listed ||
                         forall e <- old(events) :: e.reason == input.reason ==> !SameVeleroPayload(codec, e.velero, input.velero)
      ensures events == if added then old(events) + [input] else old(events)
      ensures old(NoRepetition()) && input.velero != map[] && listed ==> NoRepetition()
    {
      hide SameVeleroPayload;
      if |input.velero| == 0 || !listed {
        events := events + [input];
        return true;
      }
      var i := |events| - 1;
      while i >= 0
        invariant -1 <= i < |events| && events == old(events)
        invariant forall j :: i < j < |events| ==> !Repeats(codec, input, events[j])
      {
        if events[i].reason == input.reason && SameVeleroPayload(codec, events[i].velero, input.velero) {
          assert events[i] in events;
          return false;
        }
        i := i - 1;
      }
      forall e <- events ensures !Repeats(codec, e, input) {
        SameIsSymmetric(codec, e.velero, input.velero);
      }
      events := events + [input];
      added := true;
    }

    /** A run of de-duplicated writes: no two entries of the log repeat each other, and every input is
        there, itself or as an earlier entry it repeats. */
    method AddAll(inputs: seq<Event>)
      requires NoRepetition()
      requires forall e <- inputs :: e.velero != map[]
      modifies this
      ensures NoRepetition()
      ensures old(events) <= events
      ensures forall e <- inputs :: exists f <- events :: f == e || Repeats(codec, e, f)
    {
      hide SameVeleroPayload, Repeats;
      for i := 0 to |inputs|
        invariant NoRepetition() && old(events) <= events
        invariant forall k :: 0 <= k < i ==> exists f <- events :: f == inputs[k] || Repeats(codec, inputs[k], f)
      {
        assert inputs[i] in inputs;
        var before := events;
        var added := AddIfChanged(inputs[i], true);
        if added {
          assert inputs[i] in events;
        }
        assert forall f <- before :: f in events;
      }
    }
  }
}
