/** The admin analytics endpoint. Behind the admin gate it reads the post and
    user tables and reports global and windowed counts, a seven-day and a
    six-month trend (oldest first), the five most prolific authors and the
    rounded mean content length. Instants are milliseconds; the local calendar
    (where a day or a month starts) is given by the `Clock`. */
module Analytics {
  import opened Wrappers
  import opened Text
  import opened Domain

  const UnauthorizedError := "Unauthorized. Admin access required."
  const InternalError := "Internal server error"
  const DefaultDays := 30
  const DayMs := 86400000
  const DailyPoints := 7
  const MonthlyPoints := 6
  const TopAuthorLimit := 5

  // ---------------------------------------------------------------------------
  // Filtered counts

  /** `post.count({ where })`: the number of posts the filter keeps. */
  function Count(posts: seq<Post>, keep: Post -> bool): (c: nat)
    ensures c <= |posts|
  {
    if posts == [] then 0
    else (if keep(posts[0]) then 1 else 0) + Count(posts[1..], keep)
  }

  function HasStatus(s: Status): Post -> bool {
    (p: Post) => p.status == s
  }

  /** `createdAt: { gte: lo, lte: hi }`. */
  function CreatedBetween(lo: int, hi: int): Post -> bool {
    (p: Post) => lo <= p.createdAt <= hi
  }

  /** `createdAt: { gte: lo, lt: hi }`. */
  function CreatedIn(lo: int, hi: int): Post -> bool {
    (p: Post) => lo <= p.createdAt < hi
  }

  /** `createdAt: { gte: lo }`. */
  function CreatedSince(lo: int): Post -> bool {
    (p: Post) => lo <= p.createdAt
  }

  function Both(f: Post -> bool, g: Post -> bool): Post -> bool {
    (p: Post) => f(p) && g(p)
  }

  /** A filter that keeps fewer posts counts fewer posts. */
  lemma {:induction false} CountMonotone(posts: seq<Post>, f: Post -> bool, g: Post -> bool)
    requires forall p :: f(p) ==> g(p)
    ensures Count(posts, f) <= Count(posts, g)
  {
    if posts != [] {
      CountMonotone(posts[1..], f, g);
    }
  }

  /** The count is zero exactly when the filter keeps no post. */
  lemma {:induction false} CountZero(posts: seq<Post>, keep: Post -> bool)
    ensures Count(posts, keep) == 0 <==> forall k :: 0 <= k < |posts| ==> !keep(posts[k])
  {
    if posts != [] {
      CountZero(posts[1..], keep);
      assert forall k :: 1 <= k < |posts| ==> posts[k] == posts[1..][k - 1];
    }
  }

  /** Every post has exactly one status, so within any filter the three status
      counts add up to the filter's count. */
  lemma {:induction false} CountByStatus(posts: seq<Post>, w: Post -> bool)
    ensures Count(posts, Both(HasStatus(Pending), w)) + Count(posts, Both(HasStatus(Approved), w)) +
            Count(posts, Both(HasStatus(Rejected), w)) == Count(posts, w)
  {
    if posts != [] {
      CountByStatus(posts[1..], w);
    }
  }

  /** Every post has exactly one status, so the three status counts add up to
      the table size. */
  lemma {:induction false} CountByStatusAll(posts: seq<Post>)
    ensures Count(posts, HasStatus(Pending)) + Count(posts, HasStatus(Approved)) +
            Count(posts, HasStatus(Rejected)) == |posts|
  {
    if posts != [] {
      CountByStatusAll(posts[1..]);
    }
  }

  /** Adjacent half-open ranges split a count: [lo, mid) and [mid, hi) together
      count [lo, hi). */
  lemma {:induction false} CountSplit(posts: seq<Post>, lo: int, mid: int, hi: int)
    requires lo <= mid <= hi
    ensures Count(posts, CreatedIn(lo, mid)) + Count(posts, CreatedIn(mid, hi)) == Count(posts, CreatedIn(lo, hi))
  {
    if posts != [] {
      CountSplit(posts[1..], lo, mid, hi);
    }
  }

  // ---------------------------------------------------------------------------
  // Users

  /** `user.count({ where: { role: 'ADMIN' } })`. */
  function CountAdmins(users: seq<User>): (c: nat)
    ensures c <= |users|
    ensures c == |users| <==> forall k :: 0 <= k < |users| ==> users[k].role == AdminRole
  {
    if users == [] then 0
    else (if users[0].role == AdminRole then 1 else 0) + CountAdmins(users[1..])
  }

  // ---------------------------------------------------------------------------
  // The window

  /** The value of `c` as a digit in radix 10 or 16, if it is one. */
  function DigitValue(c: char, radix: nat): (v: Option<nat>)
    requires radix == 10 || radix == 16
    ensures v.Some? ==> v.value < radix
    ensures radix == 10 ==> (v.Some? <==> '0' <= c <= '9')
  {
    if '0' <= c <= '9' then Some(c as int - '0' as int)
    else if radix == 16 && 'a' <= c <= 'f' then Some(c as int - 'a' as int + 10)
    else if radix == 16 && 'A' <= c <= 'F' then Some(c as int - 'A' as int + 10)
    else None
  }

  /** Whether every character of `s` is a digit of the radix. */
  predicate AllDigits(s: string, radix: nat)
    requires radix == 10 || radix == 16
  {
    forall k :: 0 <= k < |s| ==> DigitValue(s[k], radix).Some?
  }

  /** The length of the longest run of digits that starts `s`. */
  function DigitRun(s: string, radix: nat): (n: nat)
    requires radix == 10 || radix == 16
    ensures n <= |s| && AllDigits(s[..n], radix)
    ensures n < |s| ==> DigitValue(s[n], radix).None?
  {
    if s == [] || DigitValue(s[0], radix).None? then 0
    else
      var n := 1 + DigitRun(s[1..], radix);
      assert s[..n] == [s[0]] + s[1..][..n - 1];
      n
  }

  /** The number a run of digits denotes, most significant digit first. */
  function DigitsValue(s: string, radix: nat): nat
    requires radix == 10 || radix == 16
    requires AllDigits(s, radix)
  {
    if s == [] then 0
    else DigitsValue(s[..|s| - 1], radix) * radix + DigitValue(s[|s| - 1], radix).value
  }

  /** An unsigned numeral: a `0x` or `0X` prefix selects radix 16, otherwise
      radix 10; the longest run of digits that follows is the number, and an
      empty run is NaN (`None`). */
  function ParseUnsigned(u: string): (r: Option<nat>)
  {
    var hex := |u| >= 2 && u[0] == '0' && (u[1] == 'x' || u[1] == 'X');
    var radix := if hex then 16 else 10;
    var body := if hex then u[2..] else u;
    var n := DigitRun(body, radix);
    if n == 0 then None else Some(DigitsValue(body[..n], radix))
  }

  /** `parseInt(s)` without a radix: leading white space is skipped, then an
      optional sign is read and the rest is an unsigned numeral. `None` stands
      for NaN. */
  function ParseInt(s: string): (r: Option<int>)
  {
    var t := s[LeadingSpaces(s)..];
    if |t| > 0 && t[0] == '-' then
      var v := ParseUnsigned(t[1..]);
      if v.None? then None else Some(-(v.value as int))
    else if |t| > 0 && t[0] == '+' then
      var v := ParseUnsigned(t[1..]);
      if v.None? then None else Some(v.value as int)
    else
      var v := ParseUnsigned(t);
      if v.None? then None else Some(v.value as int)
  }

  /** The white space skip is empty when `s` starts with a digit or a sign. */
  lemma NoLeadingSpace(s: string)
    requires |s| > 0 && ('0' <= s[0] <= '9' || s[0] == '-' || s[0] == '+')
    ensures LeadingSpaces(s) == 0
  {
    assert !IsSpace(s[0]);
  }

  /** A decimal numeral followed by text that cannot continue it reads as the
      numeral's value. */
  lemma UnsignedDecimal(digits: string, rest: string)
    requires digits != [] && AllDigits(digits, 10)
    requires rest == [] || (DigitValue(rest[0], 10).None? && rest[0] != 'x' && rest[0] != 'X')
    ensures ParseUnsigned(digits + rest) == Some(DigitsValue(digits, 10))
  {
    var u := digits + rest;
    assert !(|u| >= 2 && u[0] == '0' && (u[1] == 'x' || u[1] == 'X')) by {
      if |u| >= 2 {
        if |digits| == 1 {
          assert u[1] == rest[0];
        } else {
          assert u[1] == digits[1];
          assert DigitValue(digits[1], 10).Some?;
        }
      }
    }
    DigitRunOfNumeral(digits, rest);
    assert u[..|digits|] == digits;
  }

  /** A decimal numeral followed by text that cannot continue it: `parseInt`
      gives the numeral's value and ignores the rest. */
  lemma ParseDecimal(digits: string, rest: string)
    requires digits != [] && AllDigits(digits, 10)
    requires rest == [] || (DigitValue(rest[0], 10).None? && rest[0] != 'x' && rest[0] != 'X')
    ensures ParseInt(digits + rest) == Some(DigitsValue(digits, 10))
  {
    assert ParseUnsigned(digits + rest) == Some(DigitsValue(digits, 10)) by {
      UnsignedDecimal(digits, rest);
    }
    assert DigitValue(digits[0], 10).Some?;
    UnsignedNumeral(digits + rest);
  }

  /** A decimal numeral after a minus sign: `parseInt` gives the negated value. */
  lemma ParseNegativeDecimal(digits: string)
    requires digits != [] && AllDigits(digits, 10)
    ensures ParseInt("-" + digits) == Some(-(DigitsValue(digits, 10) as int))
  {
    UnsignedDecimal(digits, "");
    assert digits + "" == digits;
    NegativeNumeral(digits, DigitsValue(digits, 10));
  }

  lemma NegativeNumeral(u: string, v: nat)
    requires ParseUnsigned(u) == Some(v)
    ensures ParseInt("-" + u) == Some(-(v as int))
  {
    var s := "-" + u;
    NoLeadingSpace(s);
    assert s[0..] == s;
    assert s[1..] == u;
  }

  lemma UnsignedNumeral(u: string)
    requires |u| > 0 && '0' <= u[0] <= '9'
    ensures ParseInt(u) == var v := ParseUnsigned(u); if v.None? then None else Some(v.value as int)
  {
    NoLeadingSpace(u);
    assert u[0..] == u;
  }

  lemma {:induction false} DigitRunOfNumeral(digits: string, rest: string)
    requires AllDigits(digits, 10)
    requires rest == [] || DigitValue(rest[0], 10).None?
    ensures DigitRun(digits + rest, 10) == |digits|
  {
    if digits != [] {
      assert (digits + rest)[1..] == digits[1..] + rest;
      DigitRunOfNumeral(digits[1..], rest);
    } else {
      assert digits + rest == rest;
    }
  }

  /** `parseInt(days || '30')`: an absent or empty parameter means 30 days; a
      non-empty one is read by `parseInt`, NaN (`None`) included. */
  function WindowDays(param: Option<string>): (d: Option<int>)
    ensures param.None? || param == Some("") ==> d == Some(DefaultDays)
    ensures param.Some? && param.value != "" ==> d == ParseInt(param.value)
  {
    var text := if param.None? || param.value == "" then "30" else param.value;
    assert param.None? || param.value == "" ==> ParseInt(text) == Some(DefaultDays) by {
      assert "30" == "30" + "";
      ParseDecimal("30", "");
      assert "30"[..1] == "3";
    }
    ParseInt(text)
  }

  /** A decimal numeral given as `days` is the window length, negated after a
      minus sign: the text "0" is not empty, so it means 0 days and not the
      default. */
  lemma WindowDaysNumeral(digits: string)
    requires digits != [] && AllDigits(digits, 10)
    ensures WindowDays(Some(digits)) == Some(DigitsValue(digits, 10))
    ensures WindowDays(Some("-" + digits)) == Some(-(DigitsValue(digits, 10) as int))
  {
    assert digits + "" == digits;
    ParseDecimal(digits, "");
    ParseNegativeDecimal(digits);
  }

  /** "0" is 0 days, not the default, and "7" is 7 days. */
  lemma WindowDaysSmall()
    ensures WindowDays(Some("0")) == Some(0) && WindowDays(Some("7")) == Some(7)
  {
    assert AllDigits("0", 10) && AllDigits("7", 10);
    assert DigitsValue("0", 10) == 0 by { assert "0"[..0] == ""; }
    assert DigitsValue("7", 10) == 7 by { assert "7"[..0] == ""; }
    WindowDaysNumeral("0");
    WindowDaysNumeral("7");
  }

  /** Text after the digits is ignored: "12abc" is 12 days. */
  lemma WindowDaysTrailingText()
    ensures WindowDays(Some("12abc")) == Some(12)
  {
    assert AllDigits("12", 10);
    assert DigitsValue("12", 10) == 12 by {
      assert "12"[..1] == "1";
      assert "1"[..0] == "";
    }
    assert "12abc" == "12" + "abc";
    ParseDecimal("12", "abc");
  }

  /** Text with no digits is NaN: "abc". */
  lemma WindowDaysNaN()
    ensures WindowDays(Some("abc")) == None
  {
    NoSpaceBeforeLetter("abc");
    assert "abc"[0..] == "abc";
  }

  lemma NoSpaceBeforeLetter(s: string)
    requires |s| > 0 && 'a' <= s[0] <= 'z'
    ensures LeadingSpaces(s) == 0
  {
    assert !IsSpace(s[0]);
  }

  /** The instant `days` days before `now` (the route moves the calendar day back
      and keeps the time of day). */
  function WindowStart(now: int, days: int): (t: int)
    ensures days >= 0 ==> t <= now
  {
    now - days * DayMs
  }

  // ---------------------------------------------------------------------------
  // The calendar

  /** A local calendar date; `month` counts from 0 (January) as in the runtime. */
  datatype Date = Date(year: int, month: int, day: int)

  /** The months are numbered on one line: `12 * year + month`. */
  function MonthIndex(d: Date): int {
    12 * d.year + d.month
  }

  predicate IsLeap(year: int) {
    (year % 4 == 0 && year % 100 != 0) || year % 400 == 0
  }

  function DaysInMonth(year: int, month: int): (n: nat)
    requires 0 <= month < 12
    ensures 28 <= n <= 31
  {
    if month == 1 then (if IsLeap(year) then 29 else 28)
    else if month in {3, 5, 8, 10} then 30
    else 31
  }

  predicate ValidDate(d: Date) {
    0 <= d.month < 12 && 1 <= d.day <= DaysInMonth(d.year, d.month)
  }

  /** What the request handler reads from the clock: the current instant, the
      local date, where each local day starts (`midnight(k)` is the start of
      the day `k` days after today) and where each month starts
      (`monthStart(m)` for the month with index `m`). */
  datatype Clock = Clock(now: int, today: Date, midnight: int -> int, monthStart: int -> int)

  /** Days and months follow one another: later boundaries are not earlier. */
  ghost predicate Ordered(clock: Clock) {
    (forall a, b :: a <= b ==> clock.midnight(a) <= clock.midnight(b)) &&
    (forall a, b :: a <= b ==> clock.monthStart(a) <= clock.monthStart(b))
  }

  // ---------------------------------------------------------------------------
  // The daily trend

  datatype DayPoint = DayPoint(dayOffset: int, posts: nat)

  /** The entry for the day `i` days before today: posts created from that day's
      local midnight up to the next one. */
  function DailyBucket(posts: seq<Post>, clock: Clock, i: nat): DayPoint {
    var k := -(i as int);
    DayPoint(k, Count(posts, CreatedIn(clock.midnight(k), clock.midnight(k + 1))))
  }

  /** The loop that builds the seven-day trend, from six days ago to today. */
  method DailyTrend(posts: seq<Post>, clock: Clock) returns (stats: seq<DayPoint>)
    ensures |stats| == DailyPoints
    ensures forall j :: 0 <= j < |stats| ==> stats[j] == DailyBucket(posts, clock, DailyPoints - 1 - j)
  {
    stats := [];
    var i := DailyPoints - 1;
    while i >= 0
      invariant -1 <= i < DailyPoints
      invariant |stats| == DailyPoints - 1 - i
      invariant forall j :: 0 <= j < |stats| ==> stats[j] == DailyBucket(posts, clock, DailyPoints - 1 - j)
    {
      var dayStart := clock.midnight(-i);
      var dayEnd := clock.midnight(-i + 1);
      var dayPosts := Count(posts, CreatedIn(dayStart, dayEnd));
      stats := stats + [DayPoint(-i, dayPosts)];
      i := i - 1;
    }
  }

  function DayTotal(stats: seq<DayPoint>): nat {
    if stats == [] then 0 else DayTotal(stats[..|stats| - 1]) + stats[|stats| - 1].posts
  }

  lemma {:induction false} DailyPrefixCovers(posts: seq<Post>, clock: Clock, stats: seq<DayPoint>, n: nat)
    requires Ordered(clock) && n <= |stats| == DailyPoints
    requires forall j :: 0 <= j < |stats| ==> stats[j] == DailyBucket(posts, clock, DailyPoints - 1 - j)
    ensures DayTotal(stats[..n]) == Count(posts, CreatedIn(clock.midnight(1 - DailyPoints), clock.midnight(1 - DailyPoints + n)))
  {
    var first := clock.midnight(1 - DailyPoints);
    if n == 0 {
      CountZero(posts, CreatedIn(first, first));
    } else {
      DailyPrefixCovers(posts, clock, stats, n - 1);
      assert stats[..n][..n - 1] == stats[..n - 1];
      CountSplit(posts, first, clock.midnight(1 - DailyPoints + n - 1), clock.midnight(1 - DailyPoints + n));
    }
  }

  /** The seven days are consecutive and oldest first, and together they count
      exactly the posts created from six days ago's midnight to tomorrow's. */
  lemma DailyTrendCoversWeek(posts: seq<Post>, clock: Clock, stats: seq<DayPoint>)
    requires Ordered(clock) && |stats| == DailyPoints
    requires forall j :: 0 <= j < |stats| ==> stats[j] == DailyBucket(posts, clock, DailyPoints - 1 - j)
    ensures forall j :: 0 <= j < |stats| ==> stats[j].dayOffset == j - (DailyPoints - 1)
    ensures DayTotal(stats) == Count(posts, CreatedIn(clock.midnight(1 - DailyPoints), clock.midnight(1)))
  {
    DailyPrefixCovers(posts, clock, stats, DailyPoints);
    assert stats[..DailyPoints] == stats;
  }

  // ---------------------------------------------------------------------------
  // The monthly trend

  /** `date.setMonth(date.getMonth() - i)` on today's date: the month it lands in.
      When the target month is shorter than today's day of month, the runtime
      carries the surplus days into the following month. */
  function MonthAfterSetMonth(today: Date, i: nat): (m: int)
    requires ValidDate(today)
    ensures m == MonthIndex(today) - i || m == MonthIndex(today) - i + 1
    ensures m == MonthIndex(today) - i <==>
      today.day <= DaysInMonth((MonthIndex(today) - i) / 12, (MonthIndex(today) - i) % 12)
  {
    var target := MonthIndex(today) - i;
    if today.day > DaysInMonth(target / 12, target % 12) then target + 1 else target
  }

  /** The months of the six-month trend as the route computes them, oldest first. */
  function TrendMonthsAsWritten(today: Date): (ms: seq<int>)
    requires ValidDate(today)
    ensures |ms| == MonthlyPoints
  {
    seq(MonthlyPoints, j requires 0 <= j < MonthlyPoints => MonthAfterSetMonth(today, MonthlyPoints - 1 - j))
  }

  /** On the 31st of March 2024 the route lists October, December, December,
      January, March, March: November and February are missing and two months
      are counted twice. */
  lemma TrendMonthsAsWrittenRepeat()
    ensures var ms := TrendMonthsAsWritten(Date(2024, 2, 31));
      ms == [2023 * 12 + 9, 2023 * 12 + 11, 2023 * 12 + 11, 2024 * 12 + 0, 2024 * 12 + 2, 2024 * 12 + 2] &&
      ms[1] == ms[2] && 2023 * 12 + 10 !in ms
  {
    var today := Date(2024, 2, 31);
    var ms := TrendMonthsAsWritten(today);
    assert MonthIndex(today) == 24290;
    assert 24285 / 12 == 2023 && 24285 % 12 == 9;
    assert 24286 / 12 == 2023 && 24286 % 12 == 10;
    assert 24287 / 12 == 2023 && 24287 % 12 == 11;
    assert 24288 / 12 == 2024 && 24288 % 12 == 0;
    assert 24289 / 12 == 2024 && 24289 % 12 == 1;
    assert 24290 / 12 == 2024 && 24290 % 12 == 2;
    assert IsLeap(2024);
    assert ms[0] == MonthAfterSetMonth(today, 5) == 24285;
    assert ms[1] == MonthAfterSetMonth(today, 4) == 24287;
    assert ms[2] == MonthAfterSetMonth(today, 3) == 24287;
    assert ms[3] == MonthAfterSetMonth(today, 2) == 24288;
    assert ms[4] == MonthAfterSetMonth(today, 1) == 24290;
    assert ms[5] == MonthAfterSetMonth(today, 0) == 24290;
  }

  /** The months of the six-month trend: the five months before the current one
      and the current one, oldest first. */
  function TrendMonths(today: Date): (ms: seq<int>)
    ensures |ms| == MonthlyPoints
    ensures ms[MonthlyPoints - 1] == MonthIndex(today)
    ensures forall j :: 0 < j < |ms| ==> ms[j] == ms[j - 1] + 1
  {
    seq(MonthlyPoints, j requires 0 <= j < MonthlyPoints => MonthIndex(today) - (MonthlyPoints - 1 - j))
  }

  /** Until the 28th of a month both computations agree; the route goes wrong
      only on the 29th, 30th and 31st. */
  lemma TrendMonthsAgreeEarlyInMonth(today: Date)
    requires ValidDate(today) && today.day <= 28
    ensures TrendMonthsAsWritten(today) == TrendMonths(today)
  {
    var a := TrendMonthsAsWritten(today);
    var b := TrendMonths(today);
    forall j | 0 <= j < MonthlyPoints ensures a[j] == b[j] {
      var t := MonthIndex(today) - (MonthlyPoints - 1 - j);
      assert a[j] == MonthAfterSetMonth(today, MonthlyPoints - 1 - j);
      assert DaysInMonth(t / 12, t % 12) >= 28;
    }
  }

  datatype MonthPoint = MonthPoint(month: int, posts: nat)

  /** The entry for month index `m`: posts created from its first local midnight up
      to the first of the next month. */
  function MonthlyBucket(posts: seq<Post>, clock: Clock, m: int): MonthPoint {
    MonthPoint(m, Count(posts, CreatedIn(clock.monthStart(m), clock.monthStart(m + 1))))
  }

  /** The entry for the month `i` months before the current one. */
  function MonthsBackBucket(posts: seq<Post>, clock: Clock, i: nat): MonthPoint {
    MonthlyBucket(posts, clock, MonthIndex(clock.today) - i)
  }

  /** The loop that builds the six-month trend, from five months ago to the
      current month, each month taken from the first of the current month. */
  method MonthlyTrend(posts: seq<Post>, clock: Clock) returns (stats: seq<MonthPoint>)
    ensures |stats| == MonthlyPoints
    ensures forall j :: 0 <= j < |stats| ==>
      stats[j] == MonthsBackBucket(posts, clock, MonthlyPoints - 1 - j)
  {
    stats := [];
    var i := MonthlyPoints - 1;
    while i >= 0
      invariant -1 <= i < MonthlyPoints
      invariant |stats| == MonthlyPoints - 1 - i
      invariant forall j :: 0 <= j < |stats| ==>
        stats[j] == MonthsBackBucket(posts, clock, MonthlyPoints - 1 - j)
    {
      var month := MonthIndex(clock.today) - i;
      var monthPosts := Count(posts, CreatedIn(clock.monthStart(month), clock.monthStart(month + 1)));
      stats := stats + [MonthPoint(month, monthPosts)];
      i := i - 1;
    }
  }

  function MonthTotal(stats: seq<MonthPoint>): nat {
    if stats == [] then 0 else MonthTotal(stats[..|stats| - 1]) + stats[|stats| - 1].posts
  }

  lemma {:induction false} MonthlyPrefixCovers(posts: seq<Post>, clock: Clock, stats: seq<MonthPoint>, n: nat)
    requires Ordered(clock) && n <= |stats| == MonthlyPoints
    requires forall j :: 0 <= j < |stats| ==>
      stats[j] == MonthsBackBucket(posts, clock, MonthlyPoints - 1 - j)
    ensures var first := MonthIndex(clock.today) - (MonthlyPoints - 1);
      MonthTotal(stats[..n]) == Count(posts, CreatedIn(clock.monthStart(first), clock.monthStart(first + n)))
  {
    var first := MonthIndex(clock.today) - (MonthlyPoints - 1);
    if n == 0 {
      CountZero(posts, CreatedIn(clock.monthStart(first), clock.monthStart(first)));
    } else {
      MonthlyPrefixCovers(posts, clock, stats, n - 1);
      assert stats[..n][..n - 1] == stats[..n - 1];
      CountSplit(posts, clock.monthStart(first), clock.monthStart(first + n - 1), clock.monthStart(first + n));
    }
  }

  /** The six months are consecutive, end with the current month and together
      count exactly the posts created from the first of the month five months
      ago to the first of the next month. */
  lemma MonthlyTrendCoversHalfYear(posts: seq<Post>, clock: Clock, stats: seq<MonthPoint>)
    requires Ordered(clock) && |stats| == MonthlyPoints
    requires forall j :: 0 <= j < |stats| ==>
      stats[j] == MonthsBackBucket(posts, clock, MonthlyPoints - 1 - j)
    ensures stats[MonthlyPoints - 1].month == MonthIndex(clock.today)
    ensures forall j :: 0 < j < |stats| ==> stats[j].month == stats[j - 1].month + 1
    ensures var first := MonthIndex(clock.today) - (MonthlyPoints - 1);
      MonthTotal(stats) == Count(posts, CreatedIn(clock.monthStart(first), clock.monthStart(MonthIndex(clock.today) + 1)))
  {
    MonthlyPrefixCovers(posts, clock, stats, MonthlyPoints);
    assert stats[..MonthlyPoints] == stats;
  }

  /** The six-month trend as the route computes it: one entry per month that
      `setMonth` lands in, oldest first. */
  function MonthlyTrendAsWritten(posts: seq<Post>, clock: Clock): (stats: seq<MonthPoint>)
    requires ValidDate(clock.today)
    ensures |stats| == MonthlyPoints
    ensures forall j :: 0 <= j < |stats| ==> stats[j].month == TrendMonthsAsWritten(clock.today)[j]
  {
    var ms := TrendMonthsAsWritten(clock.today);
    seq(MonthlyPoints, j requires 0 <= j < MonthlyPoints => MonthlyBucket(posts, clock, ms[j]))
  }

  /** Until the 28th of a month the route's trend is the six consecutive months
      ending with the current one. */
  lemma MonthlyTrendAsWrittenEarlyInMonth(posts: seq<Post>, clock: Clock)
    requires ValidDate(clock.today) && clock.today.day <= 28
    ensures forall j :: 0 <= j < MonthlyPoints ==>
      MonthlyTrendAsWritten(posts, clock)[j] == MonthsBackBucket(posts, clock, MonthlyPoints - 1 - j)
  {
    TrendMonthsAgreeEarlyInMonth(clock.today);
  }

  /** On the 31st of March 2024 the route's trend has December twice, in two
      entries with the same count, and no entry for November. */
  lemma MonthlyTrendAsWrittenRepeats(posts: seq<Post>, clock: Clock)
    requires clock.today == Date(2024, 2, 31)
    ensures ValidDate(clock.today)
    ensures var stats := MonthlyTrendAsWritten(posts, clock);
      stats[1] == stats[2] && stats[1].month == 2023 * 12 + 11 &&
      forall j :: 0 <= j < |stats| ==> stats[j].month != 2023 * 12 + 10
  {
    assert IsLeap(2024);
    TrendMonthsAsWrittenRepeat();
    var ms := TrendMonthsAsWritten(clock.today);
    assert ms[1] == ms[2];
  }

  // ---------------------------------------------------------------------------
  // Top authors

  datatype AuthorStat = AuthorStat(id: UserId, name: string, email: string, postCount: nat)

  /** `_count.posts` of a user: the posts that user wrote. */
  function PostCount(posts: seq<Post>, u: UserId): nat {
    Count(posts, (p: Post) => p.authorId == u)
  }

  /** `where: { posts: { some: {} } }`: the users who wrote at least one post, in
      table order, with their post counts. */
  function ActiveAuthors(users: seq<User>, posts: seq<Post>): (r: seq<AuthorStat>)
    ensures forall a :: a in r ==> a.postCount >= 1
    ensures forall a :: a in r <==>
      exists u :: u in users && PostCount(posts, u.id) >= 1 && a == AuthorStat(u.id, u.name, u.email, PostCount(posts, u.id))
  {
    if users == [] then []
    else
      var u := users[0];
      var c := PostCount(posts, u.id);
      (if c >= 1 then [AuthorStat(u.id, u.name, u.email, c)] else []) + ActiveAuthors(users[1..], posts)
  }

  lemma {:induction false} NoAuthorsWithoutPosts(users: seq<User>)
    ensures ActiveAuthors(users, []) == []
  {
    if users != [] {
      NoAuthorsWithoutPosts(users[1..]);
    }
  }

  predicate NonIncreasing(s: seq<AuthorStat>) {
    forall i, j :: 0 <= i < j < |s| ==> s[i].postCount >= s[j].postCount
  }

  /** Puts `a` in front of the first entry that does not count more posts. */
  function Insert(a: AuthorStat, sorted: seq<AuthorStat>): seq<AuthorStat> {
    if sorted == [] || a.postCount >= sorted[0].postCount then [a] + sorted
    else [sorted[0]] + Insert(a, sorted[1..])
  }

  /** An entry that counts at least as many posts as the head of a ranking can
      go in front of it. */
  lemma PrependKeepsRanking(a: AuthorStat, sorted: seq<AuthorStat>)
    requires NonIncreasing(sorted)
    requires sorted == [] || a.postCount >= sorted[0].postCount
    ensures NonIncreasing([a] + sorted)
  {
    var r := [a] + sorted;
    forall i, j | 0 <= i < j < |r| ensures r[i].postCount >= r[j].postCount {
      if i > 0 {
        assert r[i] == sorted[i - 1] && r[j] == sorted[j - 1];
      } else if j > 1 {
        assert sorted[0].postCount >= sorted[j - 1].postCount;
      }
    }
  }

  /** Every entry of a ranking with `a` added counts at most as many posts as
      an entry `top` that beats `a` and every member of the ranking. */
  lemma BoundAfterInsert(top: AuthorStat, a: AuthorStat, tail: seq<AuthorStat>, rest: seq<AuthorStat>)
    requires a.postCount <= top.postCount
    requires forall k :: 0 <= k < |tail| ==> tail[k].postCount <= top.postCount
    requires multiset(rest) == multiset(tail) + multiset{a}
    ensures forall k :: 0 <= k < |rest| ==> rest[k].postCount <= top.postCount
  {
    forall k | 0 <= k < |rest| ensures rest[k].postCount <= top.postCount {
      assert rest[k] in multiset(rest);
      if rest[k] != a {
        assert rest[k] in multiset(tail);
        var m :| 0 <= m < |tail| && tail[m] == rest[k];
      }
    }
  }

  /** Inserting into a ranking keeps it a ranking and adds exactly `a`. */
  lemma {:induction false} InsertKeepsRanking(a: AuthorStat, sorted: seq<AuthorStat>)
    requires NonIncreasing(sorted)
    ensures NonIncreasing(Insert(a, sorted))
    ensures multiset(Insert(a, sorted)) == multiset(sorted) + multiset{a}
  {
    if sorted == [] || a.postCount >= sorted[0].postCount {
      PrependKeepsRanking(a, sorted);
    } else {
      var tail := sorted[1..];
      assert sorted == [sorted[0]] + tail;
      InsertKeepsRanking(a, tail);
      BoundAfterInsert(sorted[0], a, tail, Insert(a, tail));
      PrependKeepsRanking(sorted[0], Insert(a, tail));
    }
  }

  /** `orderBy: { posts: { _count: 'desc' } }`: a stable sort by post count, most first. */
  function Ranked(s: seq<AuthorStat>): seq<AuthorStat> {
    if s == [] then [] else Insert(s[0], Ranked(s[1..]))
  }

  /** The ranking is ordered by post count, most first, and holds exactly the
      authors it was given. */
  lemma {:induction false} RankedSorts(s: seq<AuthorStat>)
    ensures NonIncreasing(Ranked(s))
    ensures multiset(Ranked(s)) == multiset(s)
  {
    if s != [] {
      RankedSorts(s[1..]);
      InsertKeepsRanking(s[0], Ranked(s[1..]));
      assert s == [s[0]] + s[1..];
    }
  }

  /** `take: 5` after the ranking. */
  function FirstFive(active: seq<AuthorStat>): seq<AuthorStat> {
    var ranked := Ranked(active);
    if |ranked| <= TopAuthorLimit then ranked else ranked[..TopAuthorLimit]
  }

  lemma FirstFiveOrdered(active: seq<AuthorStat>)
    ensures |FirstFive(active)| <= TopAuthorLimit && NonIncreasing(FirstFive(active))
    ensures |FirstFive(active)| < TopAuthorLimit ==> multiset(FirstFive(active)) == multiset(active)
  {
    RankedSorts(active);
  }

  lemma FirstFiveDrawn(active: seq<AuthorStat>)
    ensures forall a :: a in FirstFive(active) ==> a in active
  {
    var ranked := Ranked(active);
    RankedSorts(active);
    forall a | a in FirstFive(active) ensures a in active {
      assert a in ranked;
      assert a in multiset(ranked);
    }
  }

  lemma FirstFiveBeatsRest(active: seq<AuthorStat>, a: AuthorStat)
    requires a in active && a !in FirstFive(active)
    ensures FirstFive(active) != [] && a.postCount <= FirstFive(active)[|FirstFive(active)| - 1].postCount
  {
    var ranked := Ranked(active);
    RankedSorts(active);
    assert a in multiset(active);
    assert a in multiset(ranked);
    var k :| 0 <= k < |ranked| && ranked[k] == a;
    assert k >= TopAuthorLimit;
    assert FirstFive(active)[TopAuthorLimit - 1] == ranked[TopAuthorLimit - 1];
  }

  /** The first five of a ranking: ordered, drawn from the candidates, all of
      them when there are fewer than five, and no candidate left out beats the
      last one listed. */
  lemma FirstFiveRanking(active: seq<AuthorStat>)
    ensures var r := FirstFive(active);
      |r| <= TopAuthorLimit && NonIncreasing(r) &&
      (forall a :: a in r ==> a in active) &&
      (|r| < TopAuthorLimit ==> multiset(r) == multiset(active)) &&
      (forall a :: a in active && a !in r ==> r != [] && a.postCount <= r[|r| - 1].postCount)
  {
    FirstFiveOrdered(active);
    FirstFiveDrawn(active);
    forall a | a in active && a !in FirstFive(active)
      ensures FirstFive(active) != [] && a.postCount <= FirstFive(active)[|FirstFive(active)| - 1].postCount
    {
      FirstFiveBeatsRest(active, a);
    }
  }

  /** The `topAuthors` query. */
  function TopAuthors(users: seq<User>, posts: seq<Post>): seq<AuthorStat> {
    FirstFive(ActiveAuthors(users, posts))
  }

  /** At most five authors, each with at least one post, most prolific first;
      nobody left out wrote more posts than the last one listed, and fewer than
      five are listed only when there are no more authors. */
  lemma TopAuthorsRanking(users: seq<User>, posts: seq<Post>)
    ensures var r := TopAuthors(users, posts);
      |r| <= TopAuthorLimit && NonIncreasing(r) &&
      (forall a :: a in r ==> a in ActiveAuthors(users, posts) && a.postCount >= 1) &&
      (|r| < TopAuthorLimit ==> multiset(r) == multiset(ActiveAuthors(users, posts))) &&
      (forall a :: a in ActiveAuthors(users, posts) && a !in r ==> r != [] && a.postCount <= r[|r| - 1].postCount)
  {
    FirstFiveRanking(ActiveAuthors(users, posts));
  }

  // ---------------------------------------------------------------------------
  // Mean content length

  function TotalLength(posts: seq<Post>): nat {
    if posts == [] then 0 else |posts[0].content| + TotalLength(posts[1..])
  }

  /** `Math.round(sum / count)`, or 0 for an empty table: the whole number
      nearest to the mean, halves rounded up. */
  function AvgContentLength(posts: seq<Post>): (r: nat)
    ensures posts == [] ==> r == 0
    ensures posts != [] ==>
      2 * |posts| * r <= 2 * TotalLength(posts) + |posts| < 2 * |posts| * r + 2 * |posts|
  {
    if |posts| > 0 then
      var n := |posts|;
      var q := (2 * TotalLength(posts) + n) / (2 * n);
      assert 2 * n * q <= 2 * TotalLength(posts) + n < 2 * n * q + 2 * n;
      q
    else 0
  }

  // ---------------------------------------------------------------------------
  // The endpoint

  datatype Overview = Overview(
    totalPosts: nat, pendingPosts: nat, approvedPosts: nat, rejectedPosts: nat,
    totalUsers: nat, adminUsers: nat)

  datatype Recent = Recent(posts: nat, pending: nat, approved: nat, rejected: nat, activity24h: nat)

  datatype Report = Report(
    overview: Overview,
    recent: Recent,
    daily: seq<DayPoint>,
    monthly: seq<MonthPoint>,
    topAuthors: seq<AuthorStat>,
    avgContentLength: nat,
    periodDays: int)

  datatype AnalyticsResponse = Failed(code: nat, error: string) | Ok(report: Report)

  /** The global counts. */
  function OverviewOf(posts: seq<Post>, users: seq<User>): (o: Overview)
    ensures o.pendingPosts + o.approvedPosts + o.rejectedPosts == o.totalPosts == |posts|
    ensures o.adminUsers <= o.totalUsers == |users|
  {
    CountByStatusAll(posts);
    Overview(|posts|, Count(posts, HasStatus(Pending)), Count(posts, HasStatus(Approved)),
             Count(posts, HasStatus(Rejected)), |users|, CountAdmins(users))
  }

  /** The windowed counts: `[now - days, now]` in total and per status, and the
      posts created since 24 hours ago. */
  function RecentOf(posts: seq<Post>, now: int, days: int): (r: Recent)
    ensures r.pending + r.approved + r.rejected == r.posts
    ensures r.posts == Count(posts, CreatedBetween(WindowStart(now, days), now))
    ensures r.activity24h == Count(posts, CreatedSince(now - DayMs))
  {
    var w := CreatedBetween(WindowStart(now, days), now);
    CountByStatus(posts, w);
    Recent(Count(posts, w), Count(posts, Both(HasStatus(Pending), w)), Count(posts, Both(HasStatus(Approved), w)),
           Count(posts, Both(HasStatus(Rejected), w)), Count(posts, CreatedSince(now - DayMs)))
  }

  /** `GET /api/admin/analytics`, given the raw `days` query parameter. A
      `days` that reads as NaN makes the window bound an invalid date, which the
      store refuses; the route's catch then answers 500. */
  method GetAnalytics(session: Option<Session>, days: Option<string>, posts: seq<Post>, users: seq<User>, clock: Clock)
    returns (resp: AnalyticsResponse)
    ensures !IsAdminSession(session) ==> resp == Failed(401, UnauthorizedError)
    ensures IsAdminSession(session) && WindowDays(days).None? ==> resp == Failed(500, InternalError)
    ensures IsAdminSession(session) && WindowDays(days).Some? ==> (
      resp.Ok? &&
      resp.report.overview == OverviewOf(posts, users) &&
      resp.report.recent == RecentOf(posts, clock.now, WindowDays(days).value) &&
      resp.report.topAuthors == TopAuthors(users, posts) &&
      resp.report.avgContentLength == AvgContentLength(posts) &&
      resp.report.periodDays == WindowDays(days).value)
    ensures resp.Ok? ==> (
      |resp.report.daily| == DailyPoints &&
      (forall j :: 0 <= j < DailyPoints ==> resp.report.daily[j] == DailyBucket(posts, clock, DailyPoints - 1 - j)) &&
      |resp.report.monthly| == MonthlyPoints &&
      (forall j :: 0 <= j < MonthlyPoints ==>
        resp.report.monthly[j] == MonthsBackBucket(posts, clock, MonthlyPoints - 1 - j)))
  {
    if !IsAdminSession(session) {
      return Failed(401, UnauthorizedError);
    }
    var parsed := WindowDays(days);
    if parsed.None? {
      return Failed(500, InternalError);
    }
    var windowDays := parsed.value;
    var daily := DailyTrend(posts, clock);
    var monthly := MonthlyTrend(posts, clock);
    var report := Report(
      OverviewOf(posts, users),
      RecentOf(posts, clock.now, windowDays),
      daily,
      monthly,
      TopAuthors(users, posts),
      AvgContentLength(posts),
      windowDays);
    resp := Ok(report);
  }

  /** With an empty post table every post count is 0, both trends are all
      zeros, nobody is a top author and the mean length is 0. */
  lemma EmptyTableReport(users: seq<User>, clock: Clock, days: int)
    ensures OverviewOf([], users).totalPosts == 0 && RecentOf([], clock.now, days).posts == 0
    ensures RecentOf([], clock.now, days).activity24h == 0
    ensures forall i: nat :: DailyBucket([], clock, i).posts == 0
    ensures forall m :: MonthlyBucket([], clock, m).posts == 0
    ensures TopAuthors(users, []) == [] && AvgContentLength([]) == 0
  {
    NoAuthorsWithoutPosts(users);
  }
}
