/** The metrics registry: named metrics, each with one series per label set. */
module Metrics {
  import opened Bytes
  import opened MetricLabels

  datatype Metric =
    | HttpRequests
    | RateLimited
    | MessagesCreated
    | MessagesOpened
    | MessagesRevoked
    | DependencyErrors
    | StoreMemoryFallback
    | ActiveLinks
    | CiphertextBytes

  predicate IsCounter(m: Metric) {
    !m.StoreMemoryFallback? && !m.ActiveLinks? && !m.CiphertextBytes?
  }

  function LabelNames(m: Metric): seq<string> {
    match m
    case HttpRequests => ["route", "status_class"]
    case RateLimited => ["route"]
    case DependencyErrors => ["route"]
    case _ => []
  }

  predicate Accepts(m: Metric, labels: Labels) {
    forall i :: 0 <= i < |labels| ==> labels[i].name in LabelNames(m)
  }

  datatype Error = WrongType | UnknownLabel

  datatype Series = Series(labels: Labels, value: int)

  type Bucket = map<string, Series>

  type State = map<Metric, Bucket>

  const ALL_METRICS: seq<Metric> :=
    [HttpRequests, RateLimited, MessagesCreated, MessagesOpened, MessagesRevoked, DependencyErrors, StoreMemoryFallback,
     ActiveLinks, CiphertextBytes]

  /** The unlabelled counters and the fallback gauge always report, from zero. */
  function Seed(m: Metric): Bucket {
    if m.MessagesCreated? || m.MessagesOpened? || m.MessagesRevoked? || m.StoreMemoryFallback?
    then map["" := Series([], 0)] else map[]
  }

  const Fresh: State := map m: Metric | m in ALL_METRICS :: Seed(m)

  predicate Complete(s: State) {
    forall m: Metric :: m in s
  }

  lemma Listed(m: Metric)
    ensures m in ALL_METRICS
  {
    match m {
      case HttpRequests => assert ALL_METRICS[0] == m;
      case RateLimited => assert ALL_METRICS[1] == m;
      case MessagesCreated => assert ALL_METRICS[2] == m;
      case MessagesOpened => assert ALL_METRICS[3] == m;
      case MessagesRevoked => assert ALL_METRICS[4] == m;
      case DependencyErrors => assert ALL_METRICS[5] == m;
      case StoreMemoryFallback => assert ALL_METRICS[6] == m;
      case ActiveLinks => assert ALL_METRICS[7] == m;
      case CiphertextBytes => assert ALL_METRICS[8] == m;
    }
  }

  lemma FreshIsComplete()
    ensures Complete(Fresh)
  {
    forall m: Metric ensures m in Fresh {
      Listed(m);
    }
  }

  function Check(m: Metric, labels: Labels, counter: bool): Result<(), Error> {
    if IsCounter(m) != counter then Err(WrongType)
    else if !Accepts(m, labels) then Err(UnknownLabel)
    else Ok(())
  }

  function Put(s: State, m: Metric, labels: Labels, value: int): State
    requires m in s
  {
    var key := SerializeLabels(labels);
    s[m := s[m][key := Series(if key in s[m] then s[m][key].labels else labels, value)]]
  }

  function Get(s: State, m: Metric, labels: Labels): Option<int>
    requires m in s
  {
    var key := SerializeLabels(labels);
    if key in s[m] then Some(s[m][key].value) else None
  }

  /** A counter that was never recorded counts as zero. */
  function Value(s: State, m: Metric, labels: Labels): int
    requires m in s
  {
    var v := Get(s, m, labels);
    if v.Some? then v.value else 0
  }

  function Incremented(s: State, m: Metric, labels: Labels, amount: int): (s': State)
    requires m in s
    ensures s'.Keys == s.Keys
  {
    if Check(m, labels, true).Ok? then Put(s, m, labels, Value(s, m, labels) + amount) else s
  }

  function SetGauge(s: State, m: Metric, value: int, labels: Labels): State
    requires m in s
  {
    if Check(m, labels, false).Ok? then s[m := s[m][SerializeLabels(labels) := Series(labels, value)]] else s
  }

  datatype Op =
    | Add(metric: Metric, labels: Labels, amount: int)
    | Set(metric: Metric, labels: Labels, value: int)
    | Clear(metric: Metric)
    | Reset

  function Next(s: State, op: Op): (s': State)
    requires Complete(s)
    ensures Complete(s')
  {
    match op
    case Add(m, labels, amount) => Incremented(s, m, labels, amount)
    case Set(m, labels, value) => SetGauge(s, m, value, labels)
    case Clear(m) => s[m := map[]]
    case Reset => FreshIsComplete(); Fresh
  }

  function Run(s: State, ops: seq<Op>): (s': State)
    requires Complete(s)
    ensures Complete(s')
    decreases |ops|
  {
    if ops == [] then s else Next(Run(s, ops[..|ops| - 1]), ops[|ops| - 1])
  }

  // ---- a counter is the sum of its own increments -------------------------------------------------

  /** Independently of any key: the increments of one metric under one label set since it was last cleared. */
  function Total(ops: seq<Op>, m: Metric, labels: Labels): int {
    if ops == [] then 0 else TotalAfter(Total(ops[..|ops| - 1], m, labels), ops[|ops| - 1], m, labels)
  }

  function TotalAfter(before: int, op: Op, m: Metric, labels: Labels): int {
    match op
    case Add(x, other, amount) => if x == m && Accepts(m, other) && SameLabels(other, labels) then before + amount else before
    case Set(_, _, _) => before
    case Clear(x) => if x == m then 0 else before
    case Reset => 0
  }

  lemma AcceptedAreNames(m: Metric, labels: Labels)
    requires Accepts(m, labels)
    ensures forall n :: n in Names(labels) ==> IsName(n)
  {
    forall n | n in Names(labels) ensures IsName(n) {
      var i :| 0 <= i < |labels| && Names(labels)[i] == n;
      assert labels[i].name in LabelNames(m);
    }
  }

  lemma OneKeyPerLabelSet(m: Metric, a: Labels, n: Metric, b: Labels)
    requires Accepts(m, a) && Accepts(n, b)
    ensures SerializeLabels(a) == SerializeLabels(b) <==> SameLabels(a, b)
  {
    AcceptedAreNames(m, a);
    AcceptedAreNames(n, b);
    SerializeIsInjective(a, b);
  }

  /** One increment moves its own counter and no other. */
  lemma IncrementMovesOnlyItsOwn(s: State, m: Metric, labels: Labels, amount: int, n: Metric, others: Labels)
    requires Complete(s) && Accepts(n, others)
    ensures Value(Incremented(s, m, labels, amount), n, others)
         == Value(s, n, others)
            + (if IsCounter(m) && Accepts(m, labels) && m == n && SameLabels(labels, others) then amount else 0)
  {
    hide SerializeLabels, SameLabels, Accepts;
    if Accepts(m, labels) {
      OneKeyPerLabelSet(m, labels, n, others);
    }
  }

  lemma AddMovesTotal(s: State, x: Metric, other: Labels, amount: int, m: Metric, labels: Labels)
    requires Complete(s) && IsCounter(m) && Accepts(m, labels)
    ensures Value(Next(s, Add(x, other, amount)), m, labels)
         == TotalAfter(Value(s, m, labels), Add(x, other, amount), m, labels)
  {
    IncrementMovesOnlyItsOwn(s, x, other, amount, m, labels);
    hide SerializeLabels, SameLabels, Accepts, Incremented, Value;
  }

  lemma OtherOpsMoveTotal(s: State, op: Op, m: Metric, labels: Labels)
    requires Complete(s) && IsCounter(m) && !op.Add?
    ensures Value(Next(s, op), m, labels) == TotalAfter(Value(s, m, labels), op, m, labels)
  {
    FreshCountsZero(m, labels);
    ValueOfBucket(s, Next(s, op), m, labels);
    hide SerializeLabels, SameLabels, Accepts, Value, Fresh;
  }

  lemma StepMovesTotal(s: State, op: Op, m: Metric, labels: Labels)
    requires Complete(s) && IsCounter(m) && Accepts(m, labels)
    ensures Value(Next(s, op), m, labels) == TotalAfter(Value(s, m, labels), op, m, labels)
  {
    hide Value, Next, TotalAfter, Accepts;
    if op.Add? {
      AddMovesTotal(s, op.metric, op.labels, op.amount, m, labels);
    } else {
      OtherOpsMoveTotal(s, op, m, labels);
    }
  }

  /** Only a metric's own bucket matters to its counters. */
  lemma ValueOfBucket(s: State, t: State, m: Metric, labels: Labels)
    requires Complete(s) && Complete(t)
    ensures s[m] == t[m] ==> Value(s, m, labels) == Value(t, m, labels)
    ensures t[m] == map[] ==> Value(t, m, labels) == 0
  {
    hide SerializeLabels;
  }

  /** After any run each counter is the sum of its own increments: no series absorbs another's. */
  lemma {:induction false} CounterIsSumOfIncrements(ops: seq<Op>, m: Metric, labels: Labels)
    requires IsCounter(m) && Accepts(m, labels)
    ensures Complete(Fresh) && Value(Run(Fresh, ops), m, labels) == Total(ops, m, labels)
  {
    FreshIsComplete();
    hide Next, TotalAfter, Value, Accepts;
    if ops == [] {
      FreshCountsZero(m, labels);
    } else {
      CounterIsSumOfIncrements(ops[..|ops| - 1], m, labels);
      StepMovesTotal(Run(Fresh, ops[..|ops| - 1]), ops[|ops| - 1], m, labels);
    }
  }

  lemma FreshCountsZero(m: Metric, labels: Labels)
    ensures Complete(Fresh) && Value(Fresh, m, labels) == 0
  {
    FreshIsComplete();
    hide SerializeLabels;
  }

  /** The metrics as they are declared: six counters and three gauges, and three of them with labels. */
  lemma Declared(m: Metric)
    ensures !IsCounter(m) <==> m == StoreMemoryFallback || m == ActiveLinks || m == CiphertextBytes
    ensures LabelNames(HttpRequests) == ["route", "status_class"]
    ensures LabelNames(RateLimited) == LabelNames(DependencyErrors) == ["route"]
    ensures m != HttpRequests && m != RateLimited && m != DependencyErrors ==> LabelNames(m) == []
  {
  }

  /** A metric of the wrong type is refused before its labels are looked at, and either refusal changes nothing. */
  lemma Refusals(s: State, m: Metric, labels: Labels, amount: int)
    requires m in s
    ensures Check(m, labels, true)
         == if !IsCounter(m) then Err(WrongType) else if Accepts(m, labels) then Ok(()) else Err(UnknownLabel)
    ensures Check(m, labels, false)
         == if IsCounter(m) then Err(WrongType) else if Accepts(m, labels) then Ok(()) else Err(UnknownLabel)
    ensures Check(m, labels, true).Err? ==> Incremented(s, m, labels, amount) == s
    ensures Check(m, labels, false).Err? ==> SetGauge(s, m, amount, labels) == s
  {
    hide SerializeLabels, Accepts;
  }

  // ---- a gauge is what it was last set to ---------------------------------------------------------

  /** Independently of any key: the last value set for one metric under one label set since it was last cleared. */
  function LastSet(ops: seq<Op>, m: Metric, labels: Labels): Option<int> {
    if ops == [] then StartValue(m, labels) else LastAfter(LastSet(ops[..|ops| - 1], m, labels), ops[|ops| - 1], m, labels)
  }

  /** Four unlabelled series report from the start, with zero. */
  function StartValue(m: Metric, labels: Labels): Option<int> {
    if (m.MessagesCreated? || m.MessagesOpened? || m.MessagesRevoked? || m.StoreMemoryFallback?) && labels == [] then Some(0)
    else None
  }

  function LastAfter(before: Option<int>, op: Op, m: Metric, labels: Labels): Option<int> {
    match op
    case Add(_, _, _) => before
    case Set(x, other, value) => if x == m && Accepts(m, other) && SameLabels(other, labels) then Some(value) else before
    case Clear(x) => if x == m then None else before
    case Reset => StartValue(m, labels)
  }

  /** A fresh registry has the four zero series and no other. */
  lemma FreshSeries(m: Metric, labels: Labels)
    ensures Complete(Fresh) && Get(Fresh, m, labels) == StartValue(m, labels)
  {
    FreshIsComplete();
    SortedNames(labels);
    hide JoinItems;
  }

  lemma SetMoves(s: State, x: Metric, other: Labels, value: int, m: Metric, labels: Labels)
    requires Complete(s) && !IsCounter(m) && Accepts(m, labels)
    ensures Get(Next(s, Set(x, other, value)), m, labels) == LastAfter(Get(s, m, labels), Set(x, other, value), m, labels)
  {
    hide SerializeLabels, SameLabels, Accepts;
    if IsCounter(x) || !Accepts(x, other) {
      assert Next(s, Set(x, other, value)) == s;
    } else {
      OneKeyPerLabelSet(x, other, m, labels);
      GetAfterSet(s, x, other, value, m, labels);
    }
  }

  lemma GetAfterSet(s: State, x: Metric, other: Labels, value: int, m: Metric, labels: Labels)
    requires m in s && x in s && !IsCounter(x) && Accepts(x, other)
    ensures Get(SetGauge(s, x, value, other), m, labels)
         == if x == m && SerializeLabels(other) == SerializeLabels(labels) then Some(value) else Get(s, m, labels)
  {
    hide SerializeLabels, Accepts;
  }

  lemma OthersKeepGauge(s: State, op: Op, m: Metric, labels: Labels)
    requires Complete(s) && !IsCounter(m) && !op.Set?
    ensures Get(Next(s, op), m, labels) == LastAfter(Get(s, m, labels), op, m, labels)
  {
    FreshSeries(m, labels);
    hide SerializeLabels, SameLabels, Accepts, StartValue, Fresh;
  }

  /** After any run each gauge reports the value it was last set to, and a cleared one nothing. */
  lemma {:induction false} GaugeIsLastSet(ops: seq<Op>, m: Metric, labels: Labels)
    requires !IsCounter(m) && Accepts(m, labels)
    ensures Complete(Fresh) && Get(Run(Fresh, ops), m, labels) == LastSet(ops, m, labels)
  {
    FreshSeries(m, labels);
    hide Next, LastAfter, Get, Accepts, StartValue;
    if ops != [] {
      var before, op := ops[..|ops| - 1], ops[|ops| - 1];
      GaugeIsLastSet(before, m, labels);
      if op.Set? {
        SetMoves(Run(Fresh, before), op.metric, op.labels, op.value, m, labels);
      } else {
        OthersKeepGauge(Run(Fresh, before), op, m, labels);
      }
    }
  }

  /** Every series carries the labels its key was made from. */
  ghost predicate LabelsMatchKeys(s: State) {
    forall m, key :: m in s && key in s[m] ==> SerializeLabels(s[m][key].labels) == key
  }

  lemma FreshMatches()
    ensures LabelsMatchKeys(Fresh)
  {
    SortedNames([]);
  }

  lemma StepMatches(s: State, op: Op)
    requires Complete(s) && LabelsMatchKeys(s)
    ensures LabelsMatchKeys(Next(s, op))
  {
    FreshMatches();
    hide SerializeLabels, Accepts, Fresh;
  }

  /** After any run, what a series reports is labelled with the very labels it was recorded under, up to their order. */
  lemma {:induction false} SeriesKeepLabels(ops: seq<Op>)
    ensures Complete(Fresh) && LabelsMatchKeys(Run(Fresh, ops))
  {
    FreshIsComplete();
    FreshMatches();
    hide Next, LabelsMatchKeys;
    if ops != [] {
      SeriesKeepLabels(ops[..|ops| - 1]);
      StepMatches(Run(Fresh, ops[..|ops| - 1]), ops[|ops| - 1]);
    }
  }

  function NoSeries(): State {
    map m: Metric | m in ALL_METRICS :: map[]
  }

  function EmptyBuckets(n: nat): State
    requires n <= |ALL_METRICS|
  {
    map m: Metric | m in ALL_METRICS[..n] :: map[]
  }

  lemma NoBuckets()
    ensures EmptyBuckets(0) == map[]
  {
  }

  lemma OneMoreBucket(n: nat)
    requires n < |ALL_METRICS|
    ensures EmptyBuckets(n + 1) == EmptyBuckets(n)[ALL_METRICS[n] := map[]]
  {
    assert ALL_METRICS[..n + 1] == ALL_METRICS[..n] + [ALL_METRICS[n]];
  }

  lemma NoSeriesIsComplete()
    ensures EmptyBuckets(|ALL_METRICS|) == NoSeries() && Complete(NoSeries())
  {
    assert ALL_METRICS[..|ALL_METRICS|] == ALL_METRICS;
    forall m: Metric ensures m in NoSeries() {
      Listed(m);
    }
  }

  function Zeroed(s: State, m: Metric): State {
    if m in s then s[m := s[m]["" := Series([], 0)]] else s
  }

  lemma GaugeZero(s: State)
    requires StoreMemoryFallback in s
    ensures SetGauge(s, StoreMemoryFallback, 0, []) == Zeroed(s, StoreMemoryFallback)
  {
    SortedNames([]);
  }

  lemma SeedsAreFresh()
    ensures Zeroed(Zeroed(Zeroed(Zeroed(NoSeries(), MessagesCreated), MessagesOpened), MessagesRevoked), StoreMemoryFallback)
         == Fresh
  {
    Listed(MessagesCreated);
    Listed(MessagesOpened);
    Listed(MessagesRevoked);
    Listed(StoreMemoryFallback);
  }

  // ---- the registry as the object it is -----------------------------------------------------------

  class MetricsRegistry {
    var series: map<Metric, Bucket>

    constructor ()
      ensures series == Fresh
    {
      series := Fresh;
    }

    method Reset()
      modifies this
      ensures series == Fresh
    {
      RemoveAll();
      SetUnlabelledZero(MessagesCreated);
      SetUnlabelledZero(MessagesOpened);
      SetUnlabelledZero(MessagesRevoked);
      GaugeZero(series);
      var _ := Set(StoreMemoryFallback, 0, []);
      SeedsAreFresh();
    }

    method RemoveAll()
      modifies this
      ensures series == NoSeries()
      ensures forall m: Metric :: m in series
    {
      hide EmptyBuckets, NoSeries;
      series := map[];
      NoBuckets();
      for i := 0 to |ALL_METRICS|
        invariant series == EmptyBuckets(i)
      {
        OneMoreBucket(i);
        series := series[ALL_METRICS[i] := map[]];
      }
      NoSeriesIsComplete();
    }

    method SetUnlabelledZero(m: Metric)
      modifies this
      ensures series == Zeroed(old(series), m)
    {
      if m in series {
        series := series[m := series[m]["" := Series([], 0)]];
      }
    }

    /** The first label a metric does not take is an error. */
    method ValidateLabels(m: Metric, labels: Labels) returns (ok: bool)
      ensures ok == Accepts(m, labels)
    {
      for i := 0 to |labels|
        invariant forall j :: 0 <= j < i ==> labels[j].name in LabelNames(m)
      {
        if labels[i].name !in LabelNames(m) {
          return false;
        }
      }
      return true;
    }

    method Increment(m: Metric, labels: Labels, amount: int) returns (r: Result<(), Error>)
      requires Complete(series)
      modifies this
      ensures Complete(series) && series == Incremented(old(series), m, labels, amount) && r == Check(m, labels, true)
    {
      hide SerializeLabels, Accepts;
      if !IsCounter(m) {
        return Err(WrongType);
      }
      var ok := ValidateLabels(m, labels);
      if !ok {
        return Err(UnknownLabel);
      }
      var key := SerializeLabels(labels);
      var bucket := series[m];
      if key in bucket {
        bucket := bucket[key := bucket[key].(value := bucket[key].value + amount)];
      } else {
        bucket := bucket[key := Series(labels, amount)];
      }
      series := series[m := bucket];
      return Ok(());
    }

    method Set(m: Metric, value: int, labels: Labels) returns (r: Result<(), Error>)
      requires m in series
      modifies this
      ensures series == SetGauge(old(series), m, value, labels) && r == Check(m, labels, false)
    {
      hide SerializeLabels, Accepts;
      if IsCounter(m) {
        return Err(WrongType);
      }
      var ok := ValidateLabels(m, labels);
      if !ok {
        return Err(UnknownLabel);
      }
      series := series[m := series[m][SerializeLabels(labels) := Series(labels, value)]];
      return Ok(());
    }

    method ClearMetric(m: Metric)
      modifies this
      ensures series == old(series)[m := map[]]
      requires m in series
    {
      series := series[m := map[]];
    }
  }
}
