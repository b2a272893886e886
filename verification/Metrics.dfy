/** Prometheus metrics of the inference service (src/inference/InferenceMetrics.cc). Durations are
    reals here, counters unbounded. */
module Metrics {
  import opened Text

  // ---------- label text ----------

  function EscapeChar(c: char): string {
    if c == '\n' then "\\n" else if c == '\\' || c == '"' then ['\\', c] else [c]
  }

  function Escaped(value: string): string {
    if value == "" then "" else EscapeChar(value[0]) + Escaped(value[1..])
  }

  method EscapeLabel(value: string) returns (escaped: string)
    ensures escaped == Escaped(value)
  {
    escaped := "";
    for i := 0 to |value|
      invariant escaped + Escaped(value[i..]) == Escaped(value)
    {
      var ch := value[i];
      ghost var before := escaped;
      EscapedFrom(value, i);
      hide Escaped;
      if ch == '\\' || ch == '"' {
        escaped := escaped + ['\\'];
      }
      if ch == '\n' {
        escaped := escaped + "\\n";
      } else {
        escaped := escaped + [ch];
      }
      assert escaped == before + EscapeChar(ch);
      Regroup(before, EscapeChar(ch), Escaped(value[i + 1..]));
    }
    assert escaped + "" == escaped;
  }

  lemma EscapedFrom(value: string, i: nat)
    requires i < |value|
    ensures Escaped(value[i..]) == EscapeChar(value[i]) + Escaped(value[i + 1..])
  {
    assert value[i..][1..] == value[i + 1..];
  }

  lemma Regroup(a: string, b: string, c: string)
    ensures a + (b + c) == a + b + c
  {
  }

  /** Reads an escaped value up to the quote that ends it: the value and the text behind. */
  function ReadQuoted(text: string): Option<(string, string)> {
    if text == "" then None
    else if text[0] == '"' then Some(("", text[1..]))
    else if text[0] == '\\' then
      if |text| == 1 then None
      else
        var rest := ReadQuoted(text[2..]);
        if rest.None? then None
        else Some(([if text[1] == 'n' then '\n' else text[1]] + rest.value.0, rest.value.1))
    else
      var rest := ReadQuoted(text[1..]);
      if rest.None? then None else Some(([text[0]] + rest.value.0, rest.value.1))
  }

  /** Escaping is undone by reading: no value can end its own quotes. */
  lemma {:induction false} EscapeRoundTrip(value: string, rest: string)
    ensures ReadQuoted(Escaped(value) + "\"" + rest) == Some((value, rest))
  {
    if value == "" {
      assert Escaped(value) + "\"" + rest == "\"" + rest;
      assert ("\"" + rest)[1..] == rest;
    } else {
      var tail := Escaped(value[1..]) + "\"" + rest;
      EscapeRoundTrip(value[1..], rest);
      assert Escaped(value) + "\"" + rest == EscapeChar(value[0]) + tail;
      OneChar(value[0], tail);
      assert value == [value[0]] + value[1..];
    }
  }

  lemma OneChar(c: char, tail: string)
    ensures ReadQuoted(EscapeChar(c) + tail)
            == if ReadQuoted(tail).None? then None
               else Some(([c] + ReadQuoted(tail).value.0, ReadQuoted(tail).value.1))
  {
    var text := EscapeChar(c) + tail;
    assert text[|EscapeChar(c)|..] == tail;
  }

  function Labels(model: string, backend: string, status: string): string {
    "model=\"" + Escaped(model) + "\",backend=\"" + Escaped(backend) + "\",status=\"" + Escaped(status) + "\""
  }

  /** Reads a literal prefix and a quoted value. */
  function ReadLabel(name: string, text: string): Option<(string, string)> {
    if name <= text then ReadQuoted(text[|name|..]) else None
  }

  function ReadLabels(text: string): Option<(string, string, string)> {
    var m := ReadLabel("model=\"", text);
    if m.None? then None
    else
      var b := ReadLabel(",backend=\"", m.value.1);
      if b.None? then None
      else
        var s := ReadLabel(",status=\"", b.value.1);
        if s.None? || s.value.1 != "" then None else Some((m.value.0, b.value.0, s.value.0))
  }

  lemma ReadOne(name: string, value: string, rest: string)
    ensures ReadLabel(name, name + Escaped(value) + "\"" + rest) == Some((value, rest))
  {
    var text := name + Escaped(value) + "\"" + rest;
    assert text[|name|..] == Escaped(value) + "\"" + rest;
    EscapeRoundTrip(value, rest);
  }

  /** The label text determines model, backend and status, whatever characters they contain. */
  lemma LabelsRoundTrip(model: string, backend: string, status: string)
    ensures ReadLabels(Labels(model, backend, status)) == Some((model, backend, status))
  {
    hide ReadLabel, Escaped;
    var third := ",status=\"" + Escaped(status) + "\"";
    var second := ",backend=\"" + Escaped(backend) + "\"" + third;
    var first := "model=\"" + Escaped(model) + "\"" + second;
    assert Labels(model, backend, status) == first;
    assert third + "" == third;
    ReadOne("model=\"", model, second);
    ReadOne(",backend=\"", backend, third);
    ReadOne(",status=\"", status, "");
  }

  lemma LabelsInjective(m: string, b: string, s: string, m': string, b': string, s': string)
    requires Labels(m, b, s) == Labels(m', b', s')
    ensures m == m' && b == b' && s == s'
  {
    LabelsRoundTrip(m, b, s);
    LabelsRoundTrip(m', b', s');
  }

  // ---------- histograms ----------

  const BOUNDS: seq<real> := [0.001, 0.005, 0.01, 0.025, 0.05, 0.1, 0.25, 0.5, 1.0, 2.5, 5.0, 10.0]

  datatype Histogram = Histogram(buckets: seq<nat>, count: nat, sum: real)

  function AtMost(seen: seq<real>, bound: real): nat {
    if seen == [] then 0
    else AtMost(seen[..|seen| - 1], bound) + if seen[|seen| - 1] <= bound then 1 else 0
  }

  function Sum(seen: seq<real>): real {
    if seen == [] then 0.0 else Sum(seen[..|seen| - 1]) + seen[|seen| - 1]
  }

  /** What a histogram must say about the observations made. */
  ghost predicate Tells(h: Histogram, seen: seq<real>) {
    && |h.buckets| == |BOUNDS| && h.count == |seen| && h.sum == Sum(seen)
    && forall i :: 0 <= i < |BOUNDS| ==> h.buckets[i] == AtMost(seen, BOUNDS[i])
  }

  method Observe(histograms: map<string, Histogram>, key: string, seconds: real, ghost seen: seq<real>)
    returns (updated: map<string, Histogram>)
    requires if key in histograms then Tells(histograms[key], seen) else seen == []
    ensures updated.Keys == histograms.Keys + {key}
    ensures Tells(updated[key], seen + [seconds])
    ensures forall k :: k in histograms && k != key ==> updated[k] == histograms[k]
  {
    var histogram := if key in histograms then histograms[key] else Histogram([], 0, 0.0);
    if histogram.buckets == [] {
      histogram := histogram.(buckets := seq(|BOUNDS|, _ => 0));
    }
    histogram := histogram.(count := histogram.count + 1, sum := histogram.sum + seconds);
    assert (seen + [seconds])[..|seen|] == seen;
    ghost var all := seen + [seconds];
    assert histogram.count == |all| && histogram.sum == Sum(all);
    assert forall j :: 0 <= j < |BOUNDS| ==>
      AtMost(all, BOUNDS[j]) == AtMost(seen, BOUNDS[j]) + if seconds <= BOUNDS[j] then 1 else 0;
    hide AtMost, Sum;
    for i := 0 to |BOUNDS|
      invariant |histogram.buckets| == |BOUNDS|
      invariant histogram.count == |all| && histogram.sum == Sum(all)
      invariant forall j :: 0 <= j < i ==> histogram.buckets[j] == AtMost(all, BOUNDS[j])
      invariant forall j :: i <= j < |BOUNDS| ==> histogram.buckets[j] == AtMost(seen, BOUNDS[j])
    {
      if seconds <= BOUNDS[i] {
        histogram := histogram.(buckets := histogram.buckets[i := histogram.buckets[i] + 1]);
      }
    }
    updated := histograms[key := histogram];
  }

  /** Buckets are cumulative. */
  lemma {:induction false} AtMostGrows(seen: seq<real>, low: real, high: real)
    requires low <= high
    ensures AtMost(seen, low) <= AtMost(seen, high) <= |seen|
  {
    if seen != [] {
      AtMostGrows(seen[..|seen| - 1], low, high);
    }
  }

  lemma BucketsAreCumulative(h: Histogram, seen: seq<real>)
    requires Tells(h, seen)
    ensures forall i, j :: 0 <= i <= j < |h.buckets| ==> h.buckets[i] <= h.buckets[j] <= h.count
  {
    forall i, j | 0 <= i <= j < |h.buckets| ensures h.buckets[i] <= h.buckets[j] <= h.count {
      AtMostGrows(seen, BOUNDS[i], BOUNDS[j]);
    }
  }

  // ---------- the history ----------

  datatype Event =
    | Invalid(reason: string)
    | Refused(model: string, backend: string, reason: string)
    | Completed(model: string, backend: string, success: bool, totalMs: real, queueMs: real, inferenceMs: real)

  datatype Which = Total | Queue | Backend

  function LabelOf(e: Event): string {
    match e
    case Invalid(_) => Labels("unknown", "unknown", "invalid_request")
    case Refused(model, backend, _) => Labels(model, backend, "rejected")
    case Completed(model, backend, success, _, _, _) => Labels(model, backend, if success then "success" else "error")
  }

  function Seconds(e: Event, which: Which): real
    requires e.Completed?
  {
    match which
    case Total => e.totalMs / 1000.0
    case Queue => e.queueMs / 1000.0
    case Backend => e.inferenceMs / 1000.0
  }

  function Requests(history: seq<Event>, key: string): nat {
    if history == [] then 0
    else Requests(history[..|history| - 1], key) + if LabelOf(history[|history| - 1]) == key then 1 else 0
  }

  function Rejections(history: seq<Event>, reason: string): nat {
    if history == [] then 0
    else
      var e := history[|history| - 1];
      Rejections(history[..|history| - 1], reason) + if !e.Completed? && e.reason == reason then 1 else 0
  }

  function Observations(history: seq<Event>, key: string, which: Which): seq<real> {
    if history == [] then []
    else
      var rest, e := Observations(history[..|history| - 1], key, which), history[|history| - 1];
      if e.Completed? && Labels(e.model, e.backend, "all") == key then rest + [Seconds(e, which)] else rest
  }

  /** Every histogram of a model and backend has counted exactly the requests that succeeded or
      failed there, and no other status or label gets mixed in. */
  lemma {:induction false} CountsAgree(history: seq<Event>, model: string, backend: string, which: Which)
    ensures |Observations(history, Labels(model, backend, "all"), which)|
            == Requests(history, Labels(model, backend, "success")) + Requests(history, Labels(model, backend, "error"))
  {
    if history != [] {
      var e := history[|history| - 1];
      CountsAgree(history[..|history| - 1], model, backend, which);
      OneEvent(e, model, backend);
    }
  }

  lemma OneEvent(e: Event, model: string, backend: string)
    ensures LabelOf(e) == Labels(model, backend, "success")
            <==> e.Completed? && e.model == model && e.backend == backend && e.success
    ensures LabelOf(e) == Labels(model, backend, "error")
            <==> e.Completed? && e.model == model && e.backend == backend && !e.success
    ensures e.Completed? && Labels(e.model, e.backend, "all") == Labels(model, backend, "all")
            <==> e.Completed? && e.model == model && e.backend == backend
  {
    hide Labels, ReadLabels;
    LabelsRoundTrip(model, backend, "success");
    LabelsRoundTrip(model, backend, "error");
    LabelsRoundTrip(model, backend, "all");
    match e {
      case Invalid(_) =>
        LabelsRoundTrip("unknown", "unknown", "invalid_request");
      case Refused(m, b, _) =>
        LabelsRoundTrip(m, b, "rejected");
      case Completed(m, b, success, _, _, _) =>
        LabelsRoundTrip(m, b, if success then "success" else "error");
        LabelsRoundTrip(m, b, "all");
    }
  }

  // ---------- what the counters count ----------

  /** The number of events with a property. */
  ghost function HowMany(history: seq<Event>, p: Event -> bool): nat {
    |set i | 0 <= i < |history| && p(history[i])|
  }

  lemma HowManyGrows(history: seq<Event>, p: Event -> bool)
    requires history != []
    ensures HowMany(history, p)
         == HowMany(history[..|history| - 1], p) + if p(history[|history| - 1]) then 1 else 0
  {
    var n := |history| - 1;
    var now, before := set i | 0 <= i < |history| && p(history[i]), set i | 0 <= i < n && p(history[..n][i]);
    forall i ensures i in now <==> i in before || (i == n && p(history[n])) {
    }
    if p(history[n]) {
      assert now == before + {n};
    } else {
      assert now == before;
    }
  }

  lemma HowManyOfNone(history: seq<Event>, p: Event -> bool)
    requires history == []
    ensures HowMany(history, p) == 0
  {
    var none := set i | 0 <= i < |history| && p(history[i]);
    assert none == {};
  }

  lemma {:induction false} RequestsAre(history: seq<Event>, key: string, p: Event -> bool)
    requires forall e :: LabelOf(e) == key <==> p(e)
    ensures Requests(history, key) == HowMany(history, p)
  {
    hide LabelOf, HowMany;
    if history == [] {
      HowManyOfNone(history, p);
    } else {
      RequestsAre(history[..|history| - 1], key, p);
      HowManyGrows(history, p);
    }
  }

  lemma {:induction false} RejectionsAre(history: seq<Event>, reason: string)
    ensures Rejections(history, reason)
         == HowMany(history, (e: Event) => (e.Invalid? || e.Refused?) && e.reason == reason)
  {
    hide HowMany;
    var p := (e: Event) => (e.Invalid? || e.Refused?) && e.reason == reason;
    if history == [] {
      HowManyOfNone(history, p);
    } else {
      RejectionsAre(history[..|history| - 1], reason);
      HowManyGrows(history, p);
    }
  }

  /** The request counter of a model and backend: successes, failures and refusals there; invalid
      requests are counted apart. */
  lemma RequestsMeaning(history: seq<Event>, model: string, backend: string)
    ensures Requests(history, Labels(model, backend, "success"))
         == HowMany(history, (e: Event) => e.Completed? && e.model == model && e.backend == backend && e.success)
    ensures Requests(history, Labels(model, backend, "error"))
         == HowMany(history, (e: Event) => e.Completed? && e.model == model && e.backend == backend && !e.success)
    ensures Requests(history, Labels(model, backend, "rejected"))
         == HowMany(history, (e: Event) => e.Refused? && e.model == model && e.backend == backend)
    ensures Requests(history, Labels("unknown", "unknown", "invalid_request"))
         == HowMany(history, (e: Event) => e.Invalid?)
  {
    hide Labels, HowMany, Requests, LabelOf;
    forall e: Event
      ensures LabelOf(e) == Labels(model, backend, "success")
              <==> e.Completed? && e.model == model && e.backend == backend && e.success
      ensures LabelOf(e) == Labels(model, backend, "error")
              <==> e.Completed? && e.model == model && e.backend == backend && !e.success
      ensures LabelOf(e) == Labels(model, backend, "rejected")
              <==> e.Refused? && e.model == model && e.backend == backend
      ensures LabelOf(e) == Labels("unknown", "unknown", "invalid_request") <==> e.Invalid?
    {
      OneEvent(e, model, backend);
      OneRefusal(e, model, backend);
    }
    RequestsAre(history, Labels(model, backend, "success"),
                (e: Event) => e.Completed? && e.model == model && e.backend == backend && e.success);
    RequestsAre(history, Labels(model, backend, "error"),
                (e: Event) => e.Completed? && e.model == model && e.backend == backend && !e.success);
    RequestsAre(history, Labels(model, backend, "rejected"),
                (e: Event) => e.Refused? && e.model == model && e.backend == backend);
    RequestsAre(history, Labels("unknown", "unknown", "invalid_request"), (e: Event) => e.Invalid?);
  }

  lemma OneRefusal(e: Event, model: string, backend: string)
    ensures LabelOf(e) == Labels(model, backend, "rejected")
            <==> e.Refused? && e.model == model && e.backend == backend
    ensures LabelOf(e) == Labels("unknown", "unknown", "invalid_request") <==> e.Invalid?
  {
    hide Labels, ReadLabels;
    LabelsRoundTrip(model, backend, "rejected");
    LabelsRoundTrip("unknown", "unknown", "invalid_request");
    match e {
      case Invalid(_) =>
      case Refused(m, b, _) =>
        LabelsRoundTrip(m, b, "rejected");
      case Completed(m, b, success, _, _, _) =>
        LabelsRoundTrip(m, b, if success then "success" else "error");
    }
  }

  /** The milliseconds spent in all completions of a model and backend. */
  function Milliseconds(history: seq<Event>, model: string, backend: string, which: Which): real {
    if history == [] then 0.0
    else
      var rest, e := Milliseconds(history[..|history| - 1], model, backend, which), history[|history| - 1];
      if e.Completed? && e.model == model && e.backend == backend then
        rest + match which case Total => e.totalMs case Queue => e.queueMs case Backend => e.inferenceMs
      else rest
  }

  /** The sum of a histogram is in seconds. */
  lemma {:induction false} SumMeaning(history: seq<Event>, model: string, backend: string, which: Which)
    ensures Sum(Observations(history, Labels(model, backend, "all"), which)) * 1000.0
         == Milliseconds(history, model, backend, which)
  {
    hide Labels;
    if history != [] {
      var front, e := history[..|history| - 1], history[|history| - 1];
      var key := Labels(model, backend, "all");
      SumMeaning(front, model, backend, which);
      OneEvent(e, model, backend);
      var seen := Observations(front, key, which);
      if e.Completed? && e.model == model && e.backend == backend {
        assert Observations(history, key, which) == seen + [Seconds(e, which)];
        SumGrows(seen, Seconds(e, which));
      }
    }
  }

  lemma SumGrows(seen: seq<real>, x: real)
    ensures Sum(seen + [x]) == Sum(seen) + x
  {
    assert (seen + [x])[..|seen|] == seen;
  }

  /** A bucket counts the observations up to its bound. */
  lemma {:induction false} AtMostMeaning(seen: seq<real>, bound: real)
    ensures AtMost(seen, bound) == |set i | 0 <= i < |seen| && seen[i] <= bound|
  {
    var now := set i | 0 <= i < |seen| && seen[i] <= bound;
    if seen == [] {
      assert now == {};
    } else {
      var n := |seen| - 1;
      AtMostMeaning(seen[..n], bound);
      var before := set i | 0 <= i < n && seen[..n][i] <= bound;
      forall i ensures i in now <==> i in before || (i == n && seen[n] <= bound) {
      }
      if seen[n] <= bound {
        assert now == before + {n};
      } else {
        assert now == before;
      }
    }
  }

  /** The twelve buckets, from a millisecond to ten seconds. */
  lemma BucketsMeaning(h: Histogram, seen: seq<real>)
    requires Tells(h, seen)
    ensures |h.buckets| == 12
    ensures var bounds := [0.001, 0.005, 0.01, 0.025, 0.05, 0.1, 0.25, 0.5, 1.0, 2.5, 5.0, 10.0];
            forall b :: 0 <= b < 12 ==> h.buckets[b] == |set i | 0 <= i < |seen| && seen[i] <= bounds[b]|
  {
    hide AtMost;
    var bounds := [0.001, 0.005, 0.01, 0.025, 0.05, 0.1, 0.25, 0.5, 1.0, 2.5, 5.0, 10.0];
    forall b | 0 <= b < 12 ensures h.buckets[b] == |set i | 0 <= i < |seen| && seen[i] <= bounds[b]| {
      AtMostMeaning(seen, bounds[b]);
    }
  }

  // ---------- the object ----------

  function Count(counts: map<string, nat>, key: string): nat {
    if key in counts then counts[key] else 0
  }

  function StoredCount(histograms: map<string, Histogram>, key: string): nat {
    if key in histograms then histograms[key].count else 0
  }

  lemma StoredIsTold(histograms: map<string, Histogram>, history: seq<Event>, key: string, which: Which)
    requires Telling(histograms, history, which)
    ensures StoredCount(histograms, key) == |Observations(history, key, which)|
  {
    hide Observations;
  }

  ghost predicate Telling(histograms: map<string, Histogram>, history: seq<Event>, which: Which) {
    forall key :: if key in histograms then Tells(histograms[key], Observations(history, key, which))
                  else Observations(history, key, which) == []
  }

  ghost predicate RequestsCounted(requests: map<string, nat>, history: seq<Event>) {
    forall key :: Count(requests, key) == Requests(history, key)
  }

  ghost predicate RejectionsCounted(rejections: map<string, nat>, history: seq<Event>) {
    forall reason :: Count(rejections, reason) == Rejections(history, reason)
  }

  function Incremented(counts: map<string, nat>, key: string): map<string, nat> {
    counts[key := Count(counts, key) + 1]
  }

  lemma RequestsGrow(requests: map<string, nat>, history: seq<Event>, e: Event)
    requires RequestsCounted(requests, history)
    ensures RequestsCounted(Incremented(requests, LabelOf(e)), history + [e])
  {
    hide Labels;
    forall key ensures Count(Incremented(requests, LabelOf(e)), key) == Requests(history + [e], key) {
      OneMore(requests, LabelOf(e), key);
      assert (history + [e])[..|history|] == history;
    }
  }

  lemma OneMore(counts: map<string, nat>, key: string, k: string)
    ensures Count(Incremented(counts, key), k) == Count(counts, k) + if k == key then 1 else 0
  {
  }

  lemma RejectionsGrow(rejections: map<string, nat>, history: seq<Event>, e: Event)
    requires RejectionsCounted(rejections, history)
    ensures RejectionsCounted(if e.Completed? then rejections else Incremented(rejections, e.reason), history + [e])
  {
    hide Incremented;
    var after := if e.Completed? then rejections else Incremented(rejections, e.reason);
    forall reason ensures Count(after, reason) == Rejections(history + [e], reason) {
      if !e.Completed? {
        OneMore(rejections, e.reason, reason);
      }
      assert (history + [e])[..|history|] == history;
    }
  }

  lemma ObservationsGrow(history: seq<Event>, e: Event, key: string, which: Which)
    ensures Observations(history + [e], key, which)
            == if e.Completed? && Labels(e.model, e.backend, "all") == key
               then Observations(history, key, which) + [Seconds(e, which)] else Observations(history, key, which)
  {
    assert (history + [e])[..|history|] == history;
  }

  lemma StillTelling(histograms: map<string, Histogram>, history: seq<Event>, e: Event, which: Which)
    requires Telling(histograms, history, which) && !e.Completed?
    ensures Telling(histograms, history + [e], which)
  {
    forall key ensures Observations(history + [e], key, which) == Observations(history, key, which) {
      ObservationsGrow(history, e, key, which);
    }
  }

  lemma TellingMore(histograms: map<string, Histogram>, updated: map<string, Histogram>, history: seq<Event>,
                    e: Event, which: Which)
    requires Telling(histograms, history, which) && e.Completed?
    requires var key := Labels(e.model, e.backend, "all");
             && updated.Keys == histograms.Keys + {key}
             && Tells(updated[key], Observations(history, key, which) + [Seconds(e, which)])
             && forall k :: k in histograms && k != key ==> updated[k] == histograms[k]
    ensures Telling(updated, history + [e], which)
  {
    hide Tells, Labels, Observations, Seconds;
    forall key
      ensures if key in updated then Tells(updated[key], Observations(history + [e], key, which))
              else Observations(history + [e], key, which) == []
    {
      ObservationsGrow(history, e, key, which);
    }
  }

  class InferenceMetrics {
    var requests: map<string, nat>
    var rejections: map<string, nat>
    var totalDuration: map<string, Histogram>
    var queueDuration: map<string, Histogram>
    var backendDuration: map<string, Histogram>
    ghost var history: seq<Event>

    ghost predicate Valid()
      reads this
    {
      && RequestsCounted(requests, history) && RejectionsCounted(rejections, history)
      && Telling(totalDuration, history, Total)
      && Telling(queueDuration, history, Queue)
      && Telling(backendDuration, history, Backend)
    }

    /** The promise on the tables themselves: in each of the three, the count stored for a model and
        backend is the sum of the stored success and error counters. */
    lemma StoredCountsAgree(model: string, backend: string)
      requires Valid()
      ensures var finished := Count(requests, Labels(model, backend, "success"))
                              + Count(requests, Labels(model, backend, "error"));
              var key := Labels(model, backend, "all");
              && StoredCount(totalDuration, key) == finished
              && StoredCount(queueDuration, key) == finished
              && StoredCount(backendDuration, key) == finished
    {
      hide Labels, Tells, Requests, Observations;
      CountsAgree(history, model, backend, Total);
      CountsAgree(history, model, backend, Queue);
      CountsAgree(history, model, backend, Backend);
      var key := Labels(model, backend, "all");
      StoredIsTold(totalDuration, history, key, Total);
      StoredIsTold(queueDuration, history, key, Queue);
      StoredIsTold(backendDuration, history, key, Backend);
    }

    /** What the stored counters say. */
    lemma CountersMeaning(model: string, backend: string, reason: string)
      requires Valid()
      ensures Count(requests, Labels(model, backend, "success"))
           == HowMany(history, (e: Event) => e.Completed? && e.model == model && e.backend == backend && e.success)
      ensures Count(requests, Labels(model, backend, "error"))
           == HowMany(history, (e: Event) => e.Completed? && e.model == model && e.backend == backend && !e.success)
      ensures Count(requests, Labels(model, backend, "rejected"))
           == HowMany(history, (e: Event) => e.Refused? && e.model == model && e.backend == backend)
      ensures Count(requests, Labels("unknown", "unknown", "invalid_request"))
           == HowMany(history, (e: Event) => e.Invalid?)
      ensures Count(rejections, reason)
           == HowMany(history, (e: Event) => (e.Invalid? || e.Refused?) && e.reason == reason)
    {
      hide Labels, Telling, HowMany, Requests, Rejections;
      RequestsMeaning(history, model, backend);
      RejectionsAre(history, reason);
    }

    constructor ()
      ensures Valid() && history == []
    {
      requests, rejections := map[], map[];
      totalDuration, queueDuration, backendDuration := map[], map[], map[];
      history := [];
    }

    /** A refusal of either kind touches no histogram. */
    method CountRefusal(key: string, reason: string, ghost e: Event)
      requires Valid() && !e.Completed? && LabelOf(e) == key && e.reason == reason
      modifies this`requests, this`rejections, this`history
      ensures Valid() && history == old(history) + [e]
    {
      hide Telling, RequestsCounted, RejectionsCounted, LabelOf, Incremented;
      RequestsGrow(requests, history, e);
      RejectionsGrow(rejections, history, e);
      StillTelling(totalDuration, history, e, Total);
      StillTelling(queueDuration, history, e, Queue);
      StillTelling(backendDuration, history, e, Backend);
      requests := Incremented(requests, key);
      rejections := Incremented(rejections, reason);
      history := history + [e];
    }

    method RecordValidationFailure(reason: string)
      requires Valid()
      modifies this`requests, this`rejections, this`history
      ensures Valid() && history == old(history) + [Invalid(reason)]
    {
      CountRefusal(Labels("unknown", "unknown", "invalid_request"), reason, Invalid(reason));
    }

    method RecordSubmissionFailure(model: string, backend: string, reason: string)
      requires Valid()
      modifies this`requests, this`rejections, this`history
      ensures Valid() && history == old(history) + [Refused(model, backend, reason)]
    {
      CountRefusal(Labels(model, backend, "rejected"), reason, Refused(model, backend, reason));
    }

    method RecordCompletion(model: string, backend: string, success: bool, totalMs: real, queueMs: real, inferenceMs: real)
      requires Valid()
      modifies this
      ensures Valid() && history == old(history) + [Completed(model, backend, success, totalMs, queueMs, inferenceMs)]
    {
      hide Telling, Labels, RequestsCounted, RejectionsCounted, Incremented;
      ghost var e := Completed(model, backend, success, totalMs, queueMs, inferenceMs);
      var key := Labels(model, backend, if success then "success" else "error");
      var durationLabels := Labels(model, backend, "all");
      assert LabelOf(e) == key;
      hide LabelOf;
      RequestsGrow(requests, history, e);
      RejectionsGrow(rejections, history, e);
      requests := Incremented(requests, key);
      totalDuration := ObserveOne(totalDuration, durationLabels, totalMs / 1000.0, history, e, Total);
      queueDuration := ObserveOne(queueDuration, durationLabels, queueMs / 1000.0, history, e, Queue);
      backendDuration := ObserveOne(backendDuration, durationLabels, inferenceMs / 1000.0, history, e, Backend);
      history := history + [e];
    }
  }

  /** `observe` within the history. */
  method ObserveOne(histograms: map<string, Histogram>, key: string, seconds: real,
                    ghost history: seq<Event>, ghost e: Event, ghost which: Which)
    returns (updated: map<string, Histogram>)
    requires Telling(histograms, history, which) && e.Completed?
    requires key == Labels(e.model, e.backend, "all") && seconds == Seconds(e, which)
    ensures Telling(updated, history + [e], which)
  {
    hide Tells, Labels, Observations, Seconds;
    updated := Observe(histograms, key, seconds, Observations(history, key, which));
    TellingMore(histograms, updated, history, e, which);
  }
}
