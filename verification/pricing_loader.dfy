/** The pricing hook (hooks/usePricingData.ts): a small state machine that
    loads the served pricing once, records where it came from and falls
    back to an error state, ignoring everything after cleanup; and the
    sorted model list derived from whatever pricing it holds. */
module PricingLoader {
  import opened Basics
  import opened Js
  import opened PricingTypes
  import PricingRoute

  /** Shown when loading fails. */
  const LoadFailedMessage: string := "Unable to load pricing data. Using bundled defaults."

  /** The hook's state; `cancelled` is the cleanup flag of the effect. */
  datatype Loader = Loader(pricing: JsVal, loading: bool, source: Option<DataSource>,
                           error: Option<string>, cancelled: bool)

  /** The state on first render. */
  const Initial := Loader(Null, true, None, None, false)

  /** How the request ended: a response (its `ok` flag, its `x-data-source`
      header, and its body as parsed JSON, `None` when parsing throws), or
      a failed fetch. */
  datatype Outcome = Answer(ok: bool, header: Option<string>, json: Option<JsVal>) | NetworkError

  datatype Event = Respond(outcome: Outcome) | Cancel

  /** The start of a load: loading, with error and source cleared; the
      pricing held so far is kept. */
  function Begin(s: Loader): (t: Loader)
    ensures t.loading && t.error.None? && t.source.None?
    ensures t.pricing == s.pricing && t.cancelled == s.cancelled
  {
    s.(loading := true, error := None, source := None)
  }

  /** The header value as a source: only the three exact names count. */
  function SourceOf(header: Option<string>): (r: Option<DataSource>)
    ensures forall d :: r == Some(d) <==> header == Some(HeaderValue(d))
  {
    match header
    case Some("supabase") => Some(Supabase)
    case Some("fallback") => Some(Fallback)
    case Some("unavailable") => Some(Unavailable)
    case _ => None
  }

  /** The catch block: no pricing, the fixed message, source unavailable. */
  function Failed(s: Loader): (t: Loader)
    ensures t.pricing == Null && t.error == Some(LoadFailedMessage) && t.source == Some(Unavailable)
    ensures !t.loading && t.cancelled == s.cancelled
  {
    s.(pricing := Null, error := Some(LoadFailedMessage), source := Some(Unavailable), loading := false)
  }

  /** One event. After cleanup nothing changes any more; otherwise a
      response that is ok and parses sets the pricing and the source from
      the header, anything else is a failure, and loading ends either way. */
  function Step(s: Loader, e: Event): (t: Loader)
    ensures e.Cancel? ==> t == s.(cancelled := true)
    ensures e.Respond? && s.cancelled ==> t == s
    ensures e.Respond? && !s.cancelled ==> !t.loading && !t.cancelled
    ensures e.Respond? && !s.cancelled ==>
              var o := e.outcome;
              if o.Answer? && o.ok && o.json.Some?
              then t.pricing == o.json.value && t.source == SourceOf(o.header) && t.error == s.error
              else t == Failed(s)
  {
    match e
    case Cancel => s.(cancelled := true)
    case Respond(o) =>
      if s.cancelled then s
      else if o.Answer? && o.ok && o.json.Some? then
        s.(pricing := o.json.value, source := SourceOf(o.header), loading := false)
      else Failed(s)
  }

  /** A sequence of events, in order. */
  function Run(s: Loader, events: seq<Event>): Loader
    decreases |events|
  {
    if |events| == 0 then s else Run(Step(s, events[0]), events[1..])
  }

  /** Once cleaned up, the state never changes again. */
  lemma {:induction false} CancelledIsFinal(s: Loader, events: seq<Event>)
    requires s.cancelled
    ensures Run(s, events) == s
  {
    if |events| > 0 {
      assert Step(s, events[0]) == s;
      CancelledIsFinal(s, events[1..]);
    }
  }

  /** A failed load is never reported as anything but unavailable, and an
      error is reported exactly when the source is unavailable because of
      a failure, never alongside pricing. */
  lemma FailureReportsError(s: Loader, o: Outcome)
    requires !s.cancelled && s.error.None?
    ensures var t := Step(s, Respond(o));
            (t.error.Some? <==> !(o.Answer? && o.ok && o.json.Some?))
            && (t.error.Some? ==> t.pricing == Null && t.source == Some(Unavailable))
  {
  }

  // ---- The model list ----

  /** `cmp(a, b) <= 0` means `a` may come before `b`. */
  ghost predicate Total(cmp: (string, string) -> int)
  {
    forall a, b :: cmp(a, b) <= 0 || cmp(b, a) <= 0
  }

  ghost predicate Transitive(cmp: (string, string) -> int)
  {
    forall a, b, c :: cmp(a, b) <= 0 && cmp(b, c) <= 0 ==> cmp(a, c) <= 0
  }

  /** Each element may come before the next one. */
  ghost predicate AdjacentOrdered(s: seq<string>, cmp: (string, string) -> int)
  {
    forall i :: 0 < i < |s| ==> cmp(s[i - 1], s[i]) <= 0
  }

  /** Inserts `x` before the first element it may precede. */
  function Insert(x: string, s: seq<string>, cmp: (string, string) -> int): (r: seq<string>)
    ensures multiset(r) == multiset(s) + multiset{x}
    ensures |s| == 0 ==> r == [x]
    ensures |s| > 0 ==> r[0] == x || r[0] == s[0]
  {
    if |s| == 0 || cmp(x, s[0]) <= 0 then [x] + s
    else
      var rest := Insert(x, s[1..], cmp);
      assert s == [s[0]] + s[1..];
      [s[0]] + rest
  }

  /** Inserting into an ordered list keeps it ordered. */
  lemma {:induction false} InsertOrdered(x: string, s: seq<string>, cmp: (string, string) -> int)
    ensures Total(cmp) && AdjacentOrdered(s, cmp) ==> AdjacentOrdered(Insert(x, s, cmp), cmp)
  {
    if Total(cmp) && AdjacentOrdered(s, cmp) && |s| > 0 && cmp(x, s[0]) > 0 {
      var rest := Insert(x, s[1..], cmp);
      assert AdjacentOrdered(s[1..], cmp) by {
        forall i | 0 < i < |s[1..]| ensures cmp(s[1..][i - 1], s[1..][i]) <= 0 {
          assert s[1..][i - 1] == s[i] && s[1..][i] == s[i + 1];
        }
      }
      InsertOrdered(x, s[1..], cmp);
      var r := [s[0]] + rest;
      assert cmp(s[0], x) <= 0;
      assert |s| > 1 ==> cmp(s[0], s[1]) <= 0;
      forall i | 0 < i < |r| ensures cmp(r[i - 1], r[i]) <= 0 {
        if i > 1 {
          assert r[i - 1] == rest[i - 2] && r[i] == rest[i - 1];
        }
      }
    }
  }

  /** Insertion sort: each element goes in front of the sorted rest, before
      the first element it may precede. */
  function SortBy(s: seq<string>, cmp: (string, string) -> int): (r: seq<string>)
    ensures multiset(r) == multiset(s)
    ensures Total(cmp) ==> AdjacentOrdered(r, cmp)
  {
    if |s| == 0 then []
    else
      assert s == [s[0]] + s[1..];
      var rest := SortBy(s[1..], cmp);
      InsertOrdered(s[0], rest, cmp);
      Insert(s[0], rest, cmp)
  }

  /** With a transitive comparator, adjacent order is order throughout. */
  lemma {:induction false} OrderedThroughout(s: seq<string>, cmp: (string, string) -> int, i: nat, j: nat)
    requires Transitive(cmp) && AdjacentOrdered(s, cmp)
    requires i < j < |s|
    ensures cmp(s[i], s[j]) <= 0
    decreases j - i
  {
    if i + 1 < j {
      OrderedThroughout(s, cmp, i + 1, j);
      assert cmp(s[i], s[i + 1]) <= 0;
    }
  }

  /** `models`: no names without pricing, otherwise the names of its own
      properties, each as often as it occurs there, sorted by `cmp` (the
      source's `localeCompare`). */
  function Models(pricing: JsVal, cmp: (string, string) -> int): (r: seq<string>)
    ensures !Truthy(pricing) ==> r == []
    ensures Truthy(pricing) ==> multiset(r) == multiset(Keys(OwnEntries(pricing)))
    ensures Total(cmp) ==> AdjacentOrdered(r, cmp)
  {
    if Truthy(pricing) then SortBy(Keys(OwnEntries(pricing)), cmp) else []
  }

  /** For a map the route served, the model list holds every model name
      exactly once. */
  lemma ServedModels(m: PricingMap, cmp: (string, string) -> int)
    requires DistinctKeys(m)
    ensures multiset(Models(Obj(MapJson(m)), cmp)) == multiset(Keys(m))
    ensures forall k :: k in Keys(m) ==> multiset(Models(Obj(MapJson(m)), cmp))[k] == 1
  {
    forall k | k in Keys(m) ensures multiset(Keys(m))[k] == 1 {
      OccursOnce(Keys(m), k);
    }
  }

  lemma {:induction false} OccursOnce(s: seq<string>, k: string)
    requires forall i, j :: 0 <= i < j < |s| ==> s[i] != s[j]
    requires k in s
    ensures multiset(s)[k] == 1
  {
    assert s == [s[0]] + s[1..];
    if s[0] == k {
      assert k !in s[1..] by {
        forall i | 0 <= i < |s[1..]| ensures s[1..][i] != k {
          assert s[1..][i] == s[i + 1];
        }
      }
    } else {
      OccursOnce(s[1..], k);
    }
  }

  // ---- Against the route ----

  /** What the browser makes of a route response: `ok` for a 2xx status,
      the header naming the source, and the body as parsed JSON. */
  function Deliver(r: PricingRoute.Response, h: Host): (o: Outcome)
    ensures o.Answer? && o.header == Some(HeaderValue(r.source))
    ensures o.ok <==> 200 <= r.status < 300
  {
    Answer(200 <= r.status < 300, Some(HeaderValue(r.source)),
           match r.body
           case PricingJson(m) => Some(Obj(MapJson(m)))
           case FileText(raw) => h.parseJson(raw)
           case ErrorJson(msg) => Some(Obj([("error", Str(msg))])))
  }

  /** What the browser gets from the route: its response, or, when the
      handler rejects, the framework's error response, which is not ok and
      carries no `x-data-source` header. */
  function DeliverReply(r: Option<PricingRoute.Response>, h: Host): (o: Outcome)
    ensures r.Some? ==> o == Deliver(r.value, h)
    ensures r.None? ==> o.Answer? && !o.ok && o.header.None?
  {
    match r
    case Some(resp) => Deliver(resp, h)
    case None => Answer(false, None, None)
  }

  /** The page learns the source the route chose, with two exceptions: the
      handler rejects, or the bundled file does not parse as JSON; either
      way it reports unavailable with the error message. Served database
      pricing arrives intact. */
  lemma PageSeesRouteSource(remote: PricingRoute.Remote, file: Option<string>, h: Host)
    ensures var r := PricingRoute.Serve(remote, file, h);
            var t := Step(Begin(Initial), Respond(DeliverReply(r, h)));
            var unparsable := r.Some? && r.value.source == Fallback && h.parseJson(file.value).None?;
            (r.None? || unparsable ==> t == Failed(Begin(Initial)))
            && (r.Some? ==> (t.source == Some(r.value.source) <==> !unparsable))
            && (r.Some? && r.value.source == Supabase ==>
                  t.pricing == Obj(MapJson(PricingRoute.BuildPricingMap(remote.data.value, h))))
            && !t.loading
  {
    var r := PricingRoute.Serve(remote, file, h);
    if r.Some? {
      SourceOfHeader(r.value.source);
    }
  }

  lemma SourceOfHeader(d: DataSource)
    ensures SourceOf(Some(HeaderValue(d))) == Some(d)
  {
  }
}
