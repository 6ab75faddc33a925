/**
 * The arithmetic of the dashboard page: the default chart granularity for a scope, the
 * avatar initials, the per-bucket chart totals, and logging out.
 */
module Dashboard {
  import opened JsText
  import opened Store
  import opened Money
  import opened Browser
  import TransactionService
  import ClientSummary
  import AuthContext
  import ApiClient

  // ---------------------------------------------------------------------------
  // chart settings

  datatype Scope = WeekScope | MonthScope | YearScope
  datatype Granularity = ByDay | ByWeek | ByMonth

  /** The granularity the scope effect resets to: days for a week or a month, months for a year. */
  function DefaultGranularity(scope: Scope): (g: Granularity)
    ensures g == ByMonth <==> scope == YearScope
    ensures g == ByDay <==> scope != YearScope
  {
    match scope
    case WeekScope => ByDay
    case MonthScope => ByDay
    case YearScope => ByMonth
  }

  /** The chart filters of the page: scope, granularity and which total to draw. */
  class ChartSettings {
    var scope: Scope
    var granularity: Granularity
    var chartType: string

    /**
     * The granularity is one the scope's buttons offer: the week chart shows days only, and
     * only the year chart has a Months button.
     */
    predicate GranularityOffered()
      reads this
    {
      (scope == WeekScope ==> granularity == ByDay) && (granularity == ByMonth ==> scope == YearScope)
    }

    /** The first render: this month, by day, the balance; the effect's first run keeps the granularity. */
    constructor()
      ensures scope == MonthScope && granularity == ByDay && chartType == "balance"
      ensures granularity == DefaultGranularity(scope)
      ensures GranularityOffered()
    {
      scope := MonthScope;
      granularity := ByDay;
      chartType := "balance";
    }

    /**
     * `setChartScope(s)`: a new scope re-runs the effect, which resets the granularity; the
     * scope already selected changes nothing, so a granularity chosen by hand stays.
     */
    method SelectScope(s: Scope)
      requires GranularityOffered()
      modifies this
      ensures GranularityOffered()
      ensures scope == s && chartType == old(chartType)
      ensures s != old(scope) ==> granularity == DefaultGranularity(s)
      ensures s == old(scope) ==> granularity == old(granularity)
    {
      if s != scope {
        scope := s;
        granularity := DefaultGranularity(s);
      }
    }

    /**
     * `setChartGranularity(g)` from the Days, Weeks and Months buttons: a choice by hand, kept
     * until the scope changes. The buttons are rendered for the month and year scopes only,
     * and the Months button for the year scope only.
     */
    method SelectGranularity(g: Granularity)
      requires scope != WeekScope && (g == ByMonth ==> scope == YearScope)
      modifies this
      ensures GranularityOffered()
      ensures granularity == g && scope == old(scope) && chartType == old(chartType)
    {
      granularity := g;
    }

    /** `setChartType(t)`, from the chart's tabs: the filters stay as they were. */
    method SelectChartType(t: string)
      requires GranularityOffered()
      modifies this
      ensures GranularityOffered()
      ensures chartType == t && scope == old(scope) && granularity == old(granularity)
    {
      chartType := t;
    }
  }

  // ---------------------------------------------------------------------------
  // initials

  /** `n[0]` joined by `join('')`: the first character, and nothing for an empty word. */
  function FirstChar(word: string): (c: string)
    ensures word == "" <==> c == ""
    ensures word != "" ==> c == [word[0]]
  {
    if word == "" then "" else [word[0]]
  }

  /** The total length of some strings. */
  function TotalLength(parts: seq<string>): nat {
    if parts == [] then 0 else TotalLength(parts[..|parts| - 1]) + |parts[|parts| - 1]|
  }

  /** `parts.join('')`: the parts one after another, as long as they are together. */
  function Concat(parts: seq<string>): (s: string)
    ensures |s| == TotalLength(parts)
    ensures |parts| == 1 ==> s == parts[0]
    ensures |parts| > 0 ==> s == Concat(parts[..|parts| - 1]) + parts[|parts| - 1]
  {
    if parts == [] then "" else Concat(parts[..|parts| - 1]) + parts[|parts| - 1]
  }

  /** `words.map(n => n[0]).slice(0, 2)`. */
  function LeadingFirsts(words: seq<string>): (firsts: seq<string>)
    ensures |firsts| == if |words| < 2 then |words| else 2
    ensures forall k :: 0 <= k < |firsts| ==> firsts[k] == FirstChar(words[k])
  {
    if |words| == 0 then []
    else if |words| == 1 then [FirstChar(words[0])]
    else [FirstChar(words[0]), FirstChar(words[1])]
  }

  /** `getInitials(name)`: the upper-cased first characters of the first two space-separated words. */
  function Initials(name: string): (r: string)
    ensures |r| <= 2
  {
    var firsts := LeadingFirsts(Split(name, ' '));
    assert TotalLength(firsts) <= 2 by {
      if |firsts| >= 1 {
        assert firsts[..1][..0] == [];
        assert TotalLength(firsts[..1]) == |firsts[0]| <= 1;
      }
      if |firsts| == 2 {
        assert TotalLength(firsts) == TotalLength(firsts[..1]) + |firsts[1]|;
      }
    }
    ToUpper(Concat(firsts))
  }

  lemma SplitOfWord(w: string)
    requires ' ' !in w
    ensures Split(w, ' ') == [w]
  {
    assert IndexOf(w, ' ') == |w|;
  }

  /** A name without spaces gives its own first character, upper-cased. */
  lemma InitialsOfOneWord(w: string)
    requires ' ' !in w
    ensures Initials(w) == ToUpper(FirstChar(w))
  {
    SplitOfWord(w);
  }

  /**
   * For a name whose first two words are `first` and `second` (either may be empty, when
   * spaces are doubled), the initials are their first characters, upper-cased; every later
   * word is ignored.
   */
  lemma InitialsOfTwoWords(first: string, second: string, tail: string)
    requires ' ' !in first && ' ' !in second
    requires tail == "" || tail[0] == ' '
    ensures Initials(first + " " + second + tail) == ToUpper(FirstChar(first) + FirstChar(second))
  {
    var name := first + " " + second + tail;
    assert name == first + [' '] + (second + tail);
    SplitAtFirst(first, ' ', second + tail);
    if tail == "" {
      assert second + tail == second;
      SplitOfWord(second);
    } else {
      assert second + tail == second + [' '] + tail[1..];
      SplitAtFirst(second, ' ', tail[1..]);
    }
    var firsts := LeadingFirsts(Split(name, ' '));
    assert firsts == [FirstChar(first), FirstChar(second)];
    assert firsts[..1] == [FirstChar(first)];
  }

  /** "john doe smith" gives "JD". */
  lemma InitialsOfJohnDoeSmith()
    ensures Initials("john doe smith") == "JD"
  {
    InitialsOfTwoWords("john", "doe", " smith");
    assert "john" + " " + "doe" + " smith" == "john doe smith";
    assert ToUpper("jd") == "JD";
  }

  /** "Ann  Lee" gives "A": the empty word between the two spaces takes the second slot. */
  lemma InitialsOfDoubleSpace()
    ensures Initials("Ann  Lee") == "A"
  {
    InitialsOfTwoWords("Ann", "", " Lee");
    assert "Ann" + " " + "" + " Lee" == "Ann  Lee";
    assert ToUpper("A") == "A";
  }

  // ---------------------------------------------------------------------------
  // chart data

  /** One entry of `chartData`: the totals of one bucket, and the one the chart type selects. */
  datatype ChartPoint = ChartPoint(income: real, expense: real, balance: real, total: real)

  function PointIncome(c: ChartPoint): real { c.income }
  function PointExpense(c: ChartPoint): real { c.expense }

  /** `total`: income for "income", expense for "expense", and the balance for any other chart type. */
  function Total(chartType: string, income: real, expense: real): (t: real)
    ensures chartType == "income" ==> t == income
    ensures chartType == "expense" ==> t == expense
    ensures chartType != "income" && chartType != "expense" ==> t == income - expense
  {
    if chartType == "income" then income
    else if chartType == "expense" then expense
    else income - expense
  }

  /** The transactions the filter keeps for data point `point`; membership is the calendar test, left abstract. */
  function Bucket<P>(ts: seq<Transaction>, point: P, inBucket: (Transaction, P) -> bool): (b: seq<Transaction>)
    ensures forall t :: t in b <==> t in ts && inBucket(t, point)
  {
    Where(ts, (t: Transaction) => inBucket(t, point))
  }

  /** The chart entry for `point`: the client summary of its bucket, and the selected total. */
  function PointFor<P>(ts: seq<Transaction>, point: P, inBucket: (Transaction, P) -> bool, chartType: string): (c: ChartPoint)
    ensures c.income == SumOf(Bucket(ts, point, inBucket), TransactionService.IncomePart)
    ensures c.expense == SumOf(Bucket(ts, point, inBucket), ClientSummary.ClientExpensePart)
    ensures c.income >= 0.0 && c.expense >= 0.0 && c.balance == c.income - c.expense
    ensures c.total == Total(chartType, c.income, c.expense)
  {
    var b := Bucket(ts, point, inBucket);
    SumOfNonNegative(b, TransactionService.IncomePart);
    SumOfNonNegative(b, ClientSummary.ClientExpensePart);
    var income := SumOf(b, TransactionService.IncomePart);
    var expense := SumOf(b, ClientSummary.ClientExpensePart);
    ChartPoint(income, expense, income - expense, Total(chartType, income, expense))
  }

  /** The entries for `points`, in order. */
  function Points<P>(ts: seq<Transaction>, points: seq<P>, inBucket: (Transaction, P) -> bool, chartType: string): (data: seq<ChartPoint>)
    ensures |data| == |points|
    ensures forall k :: 0 <= k < |points| ==> data[k] == PointFor(ts, points[k], inBucket, chartType)
  {
    if points == [] then []
    else Points(ts, points[..|points| - 1], inBucket, chartType) + [PointFor(ts, points[|points| - 1], inBucket, chartType)]
  }

  /**
   * `chartData`: nothing when there are no transactions; otherwise one entry per data point
   * of the scope and granularity, in order, each summing the transactions of its bucket.
   */
  method ChartData<P>(ts: seq<Transaction>, points: seq<P>, inBucket: (Transaction, P) -> bool, chartType: string)
    returns (data: seq<ChartPoint>)
    ensures ts == [] ==> data == []
    ensures ts != [] ==> data == Points(ts, points, inBucket, chartType)
  {
    if |ts| == 0 {
      return [];
    }
    data := [];
    var i := 0;
    while i < |points|
      invariant 0 <= i <= |points|
      invariant data == Points(ts, points[..i], inBucket, chartType)
    {
      var bucket := Bucket(ts, points[i], inBucket);
      var s := ClientSummary.CalculateSummary(bucket);
      data := data + [ChartPoint(s.income, s.expense, s.balance, Total(chartType, s.income, s.expense))];
      assert points[..i + 1][..i] == points[..i];
      i := i + 1;
    }
    assert points[..i] == points;
  }

  /** How many of the data points' buckets hold `t`. */
  function Hits<P>(t: Transaction, points: seq<P>, inBucket: (Transaction, P) -> bool): nat {
    if points == [] then 0
    else Hits(t, points[..|points| - 1], inBucket) + (if inBucket(t, points[|points| - 1]) then 1 else 0)
  }

  /** f(t) once for every bucket that holds `t`. */
  function Spread<P>(t: Transaction, points: seq<P>, inBucket: (Transaction, P) -> bool, f: Transaction -> real): real {
    if points == [] then 0.0
    else Spread(t, points[..|points| - 1], inBucket, f) + (if inBucket(t, points[|points| - 1]) then f(t) else 0.0)
  }

  /** Σ over `ts` of f(t), counted once for every bucket that holds t. */
  function HitSum<P>(ts: seq<Transaction>, points: seq<P>, inBucket: (Transaction, P) -> bool, f: Transaction -> real): real {
    if ts == [] then 0.0
    else HitSum(ts[..|ts| - 1], points, inBucket, f) + Spread(ts[|ts| - 1], points, inBucket, f)
  }

  /** A transaction in no bucket adds nothing; one in a single bucket adds its value once. */
  lemma {:induction false} SpreadOfHits<P>(t: Transaction, points: seq<P>, inBucket: (Transaction, P) -> bool, f: Transaction -> real)
    ensures Hits(t, points, inBucket) == 0 ==> Spread(t, points, inBucket, f) == 0.0
    ensures Hits(t, points, inBucket) == 1 ==> Spread(t, points, inBucket, f) == f(t)
  {
    if points != [] {
      SpreadOfHits(t, points[..|points| - 1], inBucket, f);
    }
  }

  /** The bucket of the last transaction's prefix, extended by that transaction when it belongs. */
  lemma BucketOfLast<P>(ts: seq<Transaction>, point: P, inBucket: (Transaction, P) -> bool)
    requires ts != []
    ensures Bucket(ts, point, inBucket) ==
      var b := Bucket(ts[..|ts| - 1], point, inBucket);
      if inBucket(ts[|ts| - 1], point) then b + [ts[|ts| - 1]] else b
  {
  }

  lemma SumOfSnoc<T>(xs: seq<T>, x: T, f: T -> real)
    ensures SumOf(xs + [x], f) == SumOf(xs, f) + f(x)
  {
    assert (xs + [x])[..|xs|] == xs;
  }

  /** Adding a data point adds the sum over its bucket. */
  lemma {:induction false} HitSumStep<P>(ts: seq<Transaction>, points: seq<P>, point: P,
                                         inBucket: (Transaction, P) -> bool, f: Transaction -> real)
    ensures HitSum(ts, points + [point], inBucket, f) ==
      HitSum(ts, points, inBucket, f) + SumOf(Bucket(ts, point, inBucket), f)
  {
    if ts != [] {
      var init := ts[..|ts| - 1];
      var t := ts[|ts| - 1];
      HitSumStep(init, points, point, inBucket, f);
      var more := points + [point];
      assert more[..|points|] == points;
      BucketOfLast(ts, point, inBucket);
      if inBucket(t, point) {
        SumOfSnoc(Bucket(init, point, inBucket), t, f);
      }
    }
  }

  /** Summing a field over the chart counts each transaction once per bucket that holds it. */
  lemma {:induction false} PointsCountHits<P>(ts: seq<Transaction>, points: seq<P>, inBucket: (Transaction, P) -> bool,
                                              chartType: string, pick: ChartPoint -> real, f: Transaction -> real)
    requires forall k :: 0 <= k < |points| ==>
      pick(PointFor(ts, points[k], inBucket, chartType)) == SumOf(Bucket(ts, points[k], inBucket), f)
    ensures SumOf(Points(ts, points, inBucket, chartType), pick) == HitSum(ts, points, inBucket, f)
  {
    if points == [] {
      NoHits(ts, points, inBucket, f);
    } else {
      var init := points[..|points| - 1];
      var last := points[|points| - 1];
      PointsCountHits(ts, init, inBucket, chartType, pick, f);
      var data := Points(ts, points, inBucket, chartType);
      assert data[..|data| - 1] == Points(ts, init, inBucket, chartType);
      assert init + [last] == points;
      HitSumStep(ts, init, last, inBucket, f);
    }
  }

  lemma {:induction false} NoHits<P>(ts: seq<Transaction>, points: seq<P>, inBucket: (Transaction, P) -> bool, f: Transaction -> real)
    requires points == []
    ensures HitSum(ts, points, inBucket, f) == 0.0
  {
    if ts != [] {
      NoHits(ts[..|ts| - 1], points, inBucket, f);
    }
  }

  /** When each transaction lies in exactly one bucket, the counted sum is the plain sum. */
  lemma {:induction false} HitSumOfPartition<P>(ts: seq<Transaction>, points: seq<P>, inBucket: (Transaction, P) -> bool, f: Transaction -> real)
    requires forall k :: 0 <= k < |ts| ==> Hits(ts[k], points, inBucket) == 1
    ensures HitSum(ts, points, inBucket, f) == SumOf(ts, f)
  {
    if ts != [] {
      var init := ts[..|ts| - 1];
      assert forall k :: 0 <= k < |init| ==> init[k] == ts[k];
      HitSumOfPartition(init, points, inBucket, f);
      assert Hits(ts[|ts| - 1], points, inBucket) == 1;
      SpreadOfHits(ts[|ts| - 1], points, inBucket, f);
    }
  }

  /**
   * When every transaction falls in exactly one bucket (the scope covers them all), the
   * chart's incomes and expenses add up to the dashboard summary of all transactions.
   */
  lemma ChartAddsUpToSummary<P>(ts: seq<Transaction>, points: seq<P>, inBucket: (Transaction, P) -> bool, chartType: string)
    requires forall k :: 0 <= k < |ts| ==> Hits(ts[k], points, inBucket) == 1
    ensures SumOf(Points(ts, points, inBucket, chartType), PointIncome) == SumOf(ts, TransactionService.IncomePart)
    ensures SumOf(Points(ts, points, inBucket, chartType), PointExpense) == SumOf(ts, ClientSummary.ClientExpensePart)
  {
    PointsCountHits(ts, points, inBucket, chartType, PointIncome, TransactionService.IncomePart);
    HitSumOfPartition(ts, points, inBucket, TransactionService.IncomePart);
    PointsCountHits(ts, points, inBucket, chartType, PointExpense, ClientSummary.ClientExpensePart);
    HitSumOfPartition(ts, points, inBucket, ClientSummary.ClientExpensePart);
  }

  // ---------------------------------------------------------------------------
  // logout

  /** `handleLogout()`: forgets the access token and the user, logs out, and goes to the login page. */
  method HandleLogout(window: Window, auth: AuthContext.AuthProvider)
    modifies window, auth
    ensures window.storage == old(window.storage) - {ApiClient.TokenKey, "user", AuthContext.LoggedKey}
    ensures window.location == ApiClient.LoginPath
    ensures !auth.isAuthenticated && auth.isLoading == old(auth.isLoading)
  {
    window.storage := window.storage - {ApiClient.TokenKey};
    window.storage := window.storage - {"user"};
    auth.Logout(window);
    window.location := ApiClient.LoginPath;
  }
}
