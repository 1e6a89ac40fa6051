/** Recording finished requests, and what the counters then say about one another. */
module HttpMetrics {
  import opened Bytes
  import opened MetricLabels
  import opened Metrics

  datatype Method = Get | Post | Other

  /** A finished request; `route` is the template, never the URL. */
  datatype Event = Event(route: string, verb: Method, status: nat)

  function Digits(n: nat): (s: string)
    ensures |s| >= 1 && (n >= 10 ==> |s| >= 2)
  {
    if n < 10 then [('0' as int + n) as char] else Digits(n / 10) + [('0' as int + n % 10) as char]
  }

  function StatusClass(status: nat): string {
    Digits(status / 100) + "xx"
  }

  lemma {:induction false} DigitsInjective(m: nat, n: nat)
    requires Digits(m) == Digits(n)
    ensures m == n
  {
    var s, t := Digits(m), Digits(n);
    assert s[|s| - 1] == t[|t| - 1];
    if m >= 10 && n >= 10 {
      assert s[..|s| - 1] == Digits(m / 10) && t[..|t| - 1] == Digits(n / 10);
      DigitsInjective(m / 10, n / 10);
    }
  }

  function ByRoute(route: string): Labels {
    [Label("route", route)]
  }

  function ByRouteAndClass(route: string, class_: string): Labels {
    [Label("route", route), Label("status_class", class_)]
  }

  function Business(e: Event): Option<Metric> {
    if e.verb == Post && e.route == "/api/messages" && e.status == 201 then Some(MessagesCreated)
    else if e.verb == Post && e.route == "/api/messages/:id/open" && e.status == 200 then Some(MessagesOpened)
    else if e.verb == Post && e.route == "/api/messages/:id/revoke" && e.status == 200 then Some(MessagesRevoked)
    else None
  }

  function Recorded(s: State, e: Event): (s': State)
    requires Complete(s)
    ensures Complete(s')
  {
    var s1 := Incremented(s, HttpRequests, ByRouteAndClass(e.route, StatusClass(e.status)), 1);
    var s2 := if e.status == 429 then Incremented(s1, RateLimited, ByRoute(e.route), 1) else s1;
    var s3 := if e.status >= 500 then Incremented(s2, DependencyErrors, ByRoute(e.route), 1) else s2;
    if Business(e).Some? then Incremented(s3, Business(e).value, [], 1) else s3
  }

  method RecordHttp(registry: MetricsRegistry, e: Event)
    requires Complete(registry.series)
    modifies registry
    ensures Complete(registry.series) && registry.series == Recorded(old(registry.series), e)
  {
    hide Incremented, Digits;
    var _ := registry.Increment(HttpRequests, ByRouteAndClass(e.route, StatusClass(e.status)), 1);
    if e.status == 429 {
      var _ := registry.Increment(RateLimited, ByRoute(e.route), 1);
    }
    if e.status >= 500 {
      var _ := registry.Increment(DependencyErrors, ByRoute(e.route), 1);
    }
    if e.verb == Post && e.route == "/api/messages" && e.status == 201 {
      var _ := registry.Increment(MessagesCreated, [], 1);
    } else if e.verb == Post && e.route == "/api/messages/:id/open" && e.status == 200 {
      var _ := registry.Increment(MessagesOpened, [], 1);
    } else if e.verb == Post && e.route == "/api/messages/:id/revoke" && e.status == 200 {
      var _ := registry.Increment(MessagesRevoked, [], 1);
    }
  }

  function RecordAll(events: seq<Event>): (s: State)
    ensures Complete(s)
  {
    FreshIsComplete();
    if events == [] then Fresh else Recorded(RecordAll(events[..|events| - 1]), events[|events| - 1])
  }

  // ---- which counters one request moves -----------------------------------------------------------

  lemma SameRoute(r: string, q: string)
    ensures SameLabels(ByRoute(r), ByRoute(q)) <==> r == q
  {
    assert Names(ByRoute(r)) == ["route"] == Names(ByRoute(q));
    assert ValueOf(ByRoute(r), ByRoute(r)[0].name) == r && ValueOf(ByRoute(q), ByRoute(r)[0].name) == q;
  }

  lemma ValuesOfTwo(r: string, c: string)
    ensures Names(ByRouteAndClass(r, c)) == ["route", "status_class"]
    ensures ValueOf(ByRouteAndClass(r, c), "route") == r && ValueOf(ByRouteAndClass(r, c), "status_class") == c
  {
    assert ByRouteAndClass(r, c)[1..] == [Label("status_class", c)];
  }

  lemma SameRouteAndClass(r: string, c: string, q: string, d: string)
    ensures SameLabels(ByRouteAndClass(r, c), ByRouteAndClass(q, d)) <==> r == q && c == d
  {
    ValuesOfTwo(r, c);
    ValuesOfTwo(q, d);
    hide ValueOf;
    var a, b := ByRouteAndClass(r, c), ByRouteAndClass(q, d);
    assert a[0].name == "route" && a[1].name == "status_class";
    if SameLabels(a, b) {
      assert ValueOf(b, a[0].name) == ValueOf(a, a[0].name) && ValueOf(b, a[1].name) == ValueOf(a, a[1].name);
    }
  }

  lemma SameStatusClass(m: nat, n: nat)
    ensures Digits(m) + "xx" == Digits(n) + "xx" <==> m == n
  {
    if Digits(m) + "xx" == Digits(n) + "xx" {
      assert Digits(m) == (Digits(m) + "xx")[..|Digits(m)|] && |Digits(m)| == |Digits(n)|;
      DigitsInjective(m, n);
    }
  }

  /** What `Value` gains: one increment of `m` under `labels`, seen from counter `n` under `others`. */
  function Gain(m: Metric, labels: Labels, n: Metric, others: Labels): int {
    if m == n && SameLabels(labels, others) then 1 else 0
  }

  lemma AcceptsRoute(r: string, c: string)
    ensures Accepts(HttpRequests, ByRouteAndClass(r, c))
    ensures Accepts(RateLimited, ByRoute(r)) && Accepts(DependencyErrors, ByRoute(r))
  {
  }

  lemma GainIf(s: State, when_: bool, m: Metric, labels: Labels, n: Metric, others: Labels)
    requires Complete(s) && IsCounter(m) && Accepts(m, labels) && Accepts(n, others)
    ensures Value(if when_ then Incremented(s, m, labels, 1) else s, n, others)
         == Value(s, n, others) + (if when_ then Gain(m, labels, n, others) else 0)
  {
    if when_ {
      IncrementMovesOnlyItsOwn(s, m, labels, 1, n, others);
    }
    hide SameLabels, Incremented, Value, Accepts;
  }

  lemma OneRequestMoves(s: State, e: Event, n: Metric, others: Labels)
    requires Complete(s) && Accepts(n, others)
    ensures Value(Recorded(s, e), n, others)
         == Value(s, n, others)
            + Gain(HttpRequests, ByRouteAndClass(e.route, StatusClass(e.status)), n, others)
            + (if e.status == 429 then Gain(RateLimited, ByRoute(e.route), n, others) else 0)
            + (if e.status >= 500 then Gain(DependencyErrors, ByRoute(e.route), n, others) else 0)
            + (if Business(e).Some? then Gain(Business(e).value, [], n, others) else 0)
  {
    hide SameLabels, Accepts, Incremented, Value, ByRoute, ByRouteAndClass, Digits, Gain, Business, StatusClass;
    AcceptsRoute(e.route, StatusClass(e.status));
    AcceptsNoLabels();
    GainIf(s, true, HttpRequests, ByRouteAndClass(e.route, StatusClass(e.status)), n, others);
    var s1 := Incremented(s, HttpRequests, ByRouteAndClass(e.route, StatusClass(e.status)), 1);
    GainIf(s1, e.status == 429, RateLimited, ByRoute(e.route), n, others);
    var s2 := if e.status == 429 then Incremented(s1, RateLimited, ByRoute(e.route), 1) else s1;
    GainIf(s2, e.status >= 500, DependencyErrors, ByRoute(e.route), n, others);
    var s3 := if e.status >= 500 then Incremented(s2, DependencyErrors, ByRoute(e.route), 1) else s2;
    BusinessIsCounter(e);
    GainIf(s3, Business(e).Some?, if Business(e).Some? then Business(e).value else MessagesCreated, [], n, others);
  }

  lemma BusinessIsCounter(e: Event)
    ensures Business(e).Some? ==> IsCounter(Business(e).value)
  {
  }

  lemma AcceptsNoLabels()
    ensures forall m :: Accepts(m, [])
  {
  }

  // ---- what the counters say about one another ----------------------------------------------------

  function Requests(s: State, route: string, class_: nat): int
    requires Complete(s)
  {
    Value(s, HttpRequests, ByRouteAndClass(route, Digits(class_) + "xx"))
  }

  /** The requests of one route over the status classes from `lo` up to but not including `hi`. */
  function RequestsBetween(s: State, route: string, lo: nat, hi: nat): int
    requires Complete(s)
  {
    if hi <= lo then 0 else RequestsBetween(s, route, lo, hi - 1) + Requests(s, route, hi - 1)
  }

  /** The events of one route whose status class is at least `lo`. */
  function CountFrom(events: seq<Event>, route: string, lo: nat): nat {
    if events == [] then 0
    else
      var e := events[|events| - 1];
      CountFrom(events[..|events| - 1], route, lo) + (if e.route == route && e.status / 100 >= lo then 1 else 0)
  }

  predicate ClassesBelow(events: seq<Event>, hi: nat) {
    forall i :: 0 <= i < |events| ==> events[i].status / 100 < hi
  }

  lemma RequestCounted(s: State, e: Event, route: string, class_: nat)
    requires Complete(s)
    ensures Requests(Recorded(s, e), route, class_)
         == Requests(s, route, class_) + (if e.route == route && e.status / 100 == class_ then 1 else 0)
  {
    AcceptsRoute(route, Digits(class_) + "xx");
    OneRequestMoves(s, e, HttpRequests, ByRouteAndClass(route, Digits(class_) + "xx"));
    SameRouteAndClass(e.route, StatusClass(e.status), route, Digits(class_) + "xx");
    SameStatusClass(e.status / 100, class_);
    hide Value, SameLabels, Recorded, Digits, Accepts;
  }

  lemma {:induction false} SumCounted(s: State, e: Event, route: string, lo: nat, hi: nat)
    requires Complete(s)
    ensures RequestsBetween(Recorded(s, e), route, lo, hi)
         == RequestsBetween(s, route, lo, hi) + (if e.route == route && lo <= e.status / 100 < hi then 1 else 0)
    decreases hi
  {
    hide Requests, Recorded;
    if hi > lo {
      SumCounted(s, e, route, lo, hi - 1);
      RequestCounted(s, e, route, hi - 1);
    }
  }

  lemma {:induction false} FreshSum(route: string, lo: nat, hi: nat)
    ensures Complete(Fresh) && RequestsBetween(Fresh, route, lo, hi) == 0
    decreases hi
  {
    hide Requests, Fresh;
    FreshIsComplete();
    if hi > lo {
      FreshSum(route, lo, hi - 1);
      FreshRequests(route, hi - 1);
    }
  }

  /** Every request is counted once: summed over its classes, a route's counters give the requests it had. */
  lemma {:induction false} RequestsAreCounted(events: seq<Event>, route: string, lo: nat, hi: nat)
    requires ClassesBelow(events, hi)
    ensures RequestsBetween(RecordAll(events), route, lo, hi) == CountFrom(events, route, lo)
  {
    hide Recorded, RequestsBetween;
    if events == [] {
      FreshSum(route, lo, hi);
    } else {
      RequestsAreCounted(events[..|events| - 1], route, lo, hi);
      SumCounted(RecordAll(events[..|events| - 1]), events[|events| - 1], route, lo, hi);
    }
  }

  lemma {:induction false} DependencyErrorsCounted(events: seq<Event>, route: string)
    ensures Value(RecordAll(events), DependencyErrors, ByRoute(route)) == CountFrom(events, route, 5)
  {
    hide Recorded, Value, SameLabels, Accepts;
    if events == [] {
      FreshCountsZero(DependencyErrors, ByRoute(route));
    } else {
      var before, e := events[..|events| - 1], events[|events| - 1];
      DependencyErrorsCounted(before, route);
      AcceptsRoute(route, "");
      OneRequestMoves(RecordAll(before), e, DependencyErrors, ByRoute(route));
      SameRoute(e.route, route);
    }
  }

  /**
   * Per route the dependency-error counter is the sum of the request counters with status class 5 or above, whatever
   * requests were recorded.
   */
  lemma DependencyErrorsAreServerErrors(events: seq<Event>, route: string, hi: nat)
    requires ClassesBelow(events, hi)
    ensures Value(RecordAll(events), DependencyErrors, ByRoute(route)) == RequestsBetween(RecordAll(events), route, 5, hi)
  {
    hide RecordAll, Value, RequestsBetween, CountFrom;
    DependencyErrorsCounted(events, route);
    RequestsAreCounted(events, route, 5, hi);
  }

  /** The events of a route with this very status, and with this verb if one is given. */
  function CountExactly(events: seq<Event>, verb: Option<Method>, route: string, status: nat): nat {
    if events == [] then 0
    else
      var e := events[|events| - 1];
      CountExactly(events[..|events| - 1], verb, route, status)
      + (if (verb.None? || e.verb == verb.value) && e.route == route && e.status == status then 1 else 0)
  }

  /** The rate-limited counter of a route is the number of its requests answered 429. */
  lemma {:induction false} RateLimitedCounted(events: seq<Event>, route: string)
    ensures Value(RecordAll(events), RateLimited, ByRoute(route)) == CountExactly(events, None, route, 429)
  {
    hide Recorded, Value, SameLabels, Accepts;
    if events == [] {
      FreshCountsZero(RateLimited, ByRoute(route));
    } else {
      var before, e := events[..|events| - 1], events[|events| - 1];
      RateLimitedCounted(before, route);
      AcceptsRoute(route, "");
      OneRequestMoves(RecordAll(before), e, RateLimited, ByRoute(route));
      SameRoute(e.route, route);
    }
  }

  /** Created, opened and revoked messages are counted exactly: the POST requests of the route answered 201, 200 and 200. */
  lemma {:induction false} BusinessCounted(events: seq<Event>, m: Metric)
    requires m.MessagesCreated? || m.MessagesOpened? || m.MessagesRevoked?
    ensures Value(RecordAll(events), m, [])
         == CountExactly(events, Some(Post), RouteOf(m), if m.MessagesCreated? then 201 else 200)
  {
    hide Recorded, Value, SameLabels, Accepts;
    if events == [] {
      FreshCountsZero(m, []);
    } else {
      var before, e := events[..|events| - 1], events[|events| - 1];
      BusinessCounted(before, m);
      AcceptsNoLabels();
      SameLabelsReflexive();
      OneRequestMoves(RecordAll(before), e, m, []);
    }
  }

  lemma SameLabelsReflexive()
    ensures SameLabels([], [])
  {
  }

  /** The rate-limited counter of a route is part of its client-error requests. */
  lemma {:induction false} RateLimitedAreClientErrors(events: seq<Event>, route: string)
    ensures Value(RecordAll(events), RateLimited, ByRoute(route)) <= Requests(RecordAll(events), route, 4)
  {
    hide Recorded, Value, SameLabels, Accepts, Requests;
    if events == [] {
      FreshCountsZero(RateLimited, ByRoute(route));
      FreshRequests(route, 4);
    } else {
      var before, e := events[..|events| - 1], events[|events| - 1];
      RateLimitedAreClientErrors(before, route);
      AcceptsRoute(route, "");
      OneRequestMoves(RecordAll(before), e, RateLimited, ByRoute(route));
      SameRoute(e.route, route);
      RequestCounted(RecordAll(before), e, route, 4);
    }
  }

  function RouteOf(m: Metric): string {
    if m.MessagesCreated? then "/api/messages"
    else if m.MessagesOpened? then "/api/messages/:id/open"
    else "/api/messages/:id/revoke"
  }

  /** Messages created, opened and revoked never outnumber the 2xx responses of their own route. */
  lemma {:induction false} BusinessWithinSuccesses(events: seq<Event>, m: Metric)
    requires m.MessagesCreated? || m.MessagesOpened? || m.MessagesRevoked?
    ensures Value(RecordAll(events), m, []) <= Requests(RecordAll(events), RouteOf(m), 2)
  {
    hide Recorded, Value, SameLabels, Accepts, Requests;
    if events == [] {
      FreshCountsZero(m, []);
      FreshRequests(RouteOf(m), 2);
    } else {
      var before, e := events[..|events| - 1], events[|events| - 1];
      BusinessWithinSuccesses(before, m);
      AcceptsNoLabels();
      OneRequestMoves(RecordAll(before), e, m, []);
      RequestCounted(RecordAll(before), e, RouteOf(m), 2);
    }
  }

  lemma FreshRequests(route: string, class_: nat)
    ensures Complete(Fresh) && Requests(Fresh, route, class_) == 0
  {
    FreshCountsZero(HttpRequests, ByRouteAndClass(route, Digits(class_) + "xx"));
  }
}
