/** The pieces of the server set-up that decide something: which requests the general rate
    limiter counts, what an unmatched URL gets, and how the uptime is shown. */
module App {
  import opened Strings

  /** The general limiter allows this many requests per fifteen-minute window. */
  function GeneralLimit(production: bool): (n: nat)
    ensures n > 0
    ensures n == if production then 100 else 500
  {
    if production then 100 else 500
  }

  /** The limiter's `skip` callback: health checks and status polls are never counted. Only
      the health check and paths under "/api/process/" are ever skipped. */
  predicate SkipRateLimit(path: string)
    ensures SkipRateLimit(path) ==> path == "/health" || Contains(path, "/api/process/")
  {
    assert StartsWith("/api/process/status/", "/api/process/");
    assert StartsWith("/api/process/system/status", "/api/process/");
    ContainsPrefixOf(path, "/api/process/status/", "/api/process/");
    ContainsPrefixOf(path, "/api/process/system/status", "/api/process/");
    path == "/health"
    || Contains(path, "/api/process/status/")
    || Contains(path, "/api/process/system/status")
  }

  /** The general limiter is mounted only in production, and there counts every request it
      does not skip. */
  predicate Limited(production: bool, path: string)
    ensures Limited(production, path) ==>
              production && path != "/health" && !StartsWith(path, "/api/process/status/")
  {
    StartsWithContains(path, "/api/process/status/");
    production && !SkipRateLimit(path)
  }

  /** Polling the status of any job is never counted by the general limiter. */
  lemma StatusPollNotLimited(production: bool, jobId: string)
    ensures !Limited(production, "/api/process/status/" + jobId)
  {
    assert "/api/process/status/" + jobId == [] + "/api/process/status/" + jobId;
    ContainsInfix([], "/api/process/status/", jobId);
  }

  /** The system status path, and any path that carries it, is never counted either. */
  lemma SystemStatusNotLimited(production: bool, before: string, after: string)
    ensures !Limited(production, before + "/api/process/system/status" + after)
  {
    ContainsInfix(before, "/api/process/system/status", after);
  }

  /** Outside production nothing is counted. */
  lemma DevelopmentNotLimited(path: string)
    ensures !Limited(false, path)
  {
  }

  /** In production a batch submission is counted: it is neither a health check nor a poll. */
  lemma BatchLimited()
    ensures Limited(true, "/api/process/batch")
  {
    var p := "/api/process/batch";
    assert |p| != |"/health"|;
    assert "/api/process/status/"[17] == 'u';
    NotContainsChar(p, "/api/process/status/", 17);
    assert "/api/process/system/status"[14] == 'y';
    NotContainsChar(p, "/api/process/system/status", 14);
  }

  /** In production an upload is counted. */
  lemma UploadLimited()
    ensures Limited(true, "/api/upload/images")
  {
    var p := "/api/upload/images";
    assert |p| != |"/health"|;
    assert "/api/process/status/"[6] == 'r';
    NotContainsChar(p, "/api/process/status/", 6);
    assert "/api/process/system/status"[14] == 'y';
    NotContainsChar(p, "/api/process/system/status", 14);
  }

  /** The endpoints listed in the body of an API 404. */
  const AvailableEndpoints: seq<string> := [
    "POST /api/upload/images",
    "POST /api/process/batch",
    "GET /api/process/status/:jobId",
    "GET /api/download/zip/:jobId",
    "GET /health",
    "GET /system-info (dev only)"
  ]

  /** The answer to a request no route matched. */
  datatype Fallback =
    | ApiNotFound(error: string, message: string, availableEndpoints: seq<string>)
    | RedirectHome

  /** The catch-all handler: a JSON 404 naming the method and URL for anything whose original
      URL starts with "/api", a redirect to "/" for everything else. */
  function NotFound(verb: string, originalUrl: string): (r: Fallback)
    ensures r.ApiNotFound? <==> StartsWith(originalUrl, "/api")
    ensures r.RedirectHome? <==> !StartsWith(originalUrl, "/api")
    ensures r.ApiNotFound? ==>
              && r.error == "API endpoint not found"
              && r.message == "The endpoint " + verb + " " + originalUrl + " does not exist"
              && r.availableEndpoints == AvailableEndpoints
  {
    if StartsWith(originalUrl, "/api") then
      ApiNotFound("API endpoint not found",
                  "The endpoint " + verb + " " + originalUrl + " does not exist",
                  AvailableEndpoints)
    else RedirectHome
  }

  /** Every URL under "/api/" that no route matched gets a 404, whatever its method (`verb`). */
  lemma ApiUrlsGet404(verb: string, rest: string)
    ensures NotFound(verb, "/api/" + rest).ApiNotFound?
  {
    assert ("/api/" + rest)[..4] == "/api";
  }

  /** The prefix test is on characters, not on path segments: "/apidocs" counts as an API URL. */
  lemma ApiPrefixIsTextual()
    ensures NotFound("GET", "/apidocs").ApiNotFound?
  {
    assert "/apidocs"[..4] == "/api";
  }

  /** A page URL outside "/api" is sent back to the front page. */
  lemma PagesRedirect(rest: string)
    ensures NotFound("GET", "/" + rest).RedirectHome? <==> !StartsWith(rest, "api")
  {
    var u := "/" + rest;
    if |rest| >= 3 {
      assert u[..4] == "/" + rest[..3];
      if u[..4] == "/api" {
        assert rest[..3] == u[..4][1..];
      }
    }
  }

  /** The uptime broken into units. */
  datatype Duration = Duration(days: nat, hours: nat, minutes: nat, seconds: nat)

  /** `x % 3600` and `x % 60` are determined by any split of `x` into whole hours or minutes
      and a smaller rest. */
  lemma ModUnique(x: nat, q: nat, r: nat, d: nat)
    requires d == 3600 || d == 60
    requires x == q * d + r && r < d
    ensures x % d == r
  {
  }

  /** The units `formatUptime` computes from an uptime of `t` whole seconds. */
  function UptimeParts(t: nat): (d: Duration)
    ensures d.hours < 24 && d.minutes < 60 && d.seconds < 60
    ensures d.days * 86400 + d.hours * 3600 + d.minutes * 60 + d.seconds == t
  {
    var r := t % 86400;
    var m := t % 3600;
    assert m == r % 3600 by {
      ModUnique(t, 24 * (t / 86400) + r / 3600, r % 3600, 3600);
    }
    assert t % 60 == m % 60 by {
      ModUnique(t, 60 * (t / 3600) + m / 60, m % 60, 60);
    }
    Duration(t / 86400, r / 3600, m / 60, t % 60)
  }

  /** The split into units is the only one with hours, minutes and seconds in range. */
  lemma UptimePartsUnique(t: nat, d: Duration)
    requires d.hours < 24 && d.minutes < 60 && d.seconds < 60
    requires d.days * 86400 + d.hours * 3600 + d.minutes * 60 + d.seconds == t
    ensures UptimeParts(t) == d
  {
    var e := UptimeParts(t);
    var rd := d.hours * 3600 + d.minutes * 60 + d.seconds;
    var re := e.hours * 3600 + e.minutes * 60 + e.seconds;
    assert 0 <= rd < 86400 && 0 <= re < 86400;
    assert d.days == e.days;
    assert rd == re;
    var sd := d.minutes * 60 + d.seconds;
    var se := e.minutes * 60 + e.seconds;
    assert 0 <= sd < 3600 && 0 <= se < 3600;
    assert d.hours == e.hours;
    assert d.minutes == e.minutes;
  }

  /** One shown unit: its numeral and its letter. */
  function Unit(n: nat, letter: char): string {
    NatToString(n) + [letter]
  }

  /** The largest unit that is shown and its letter. */
  function Lead(d: Duration): (p: (nat, char)) {
    if d.days > 0 then (d.days, 'd')
    else if d.hours > 0 then (d.hours, 'h')
    else if d.minutes > 0 then (d.minutes, 'm')
    else (d.seconds, 's')
  }

  /** `formatUptime(uptime)` for an uptime of `t` whole seconds: the units from the largest
      non-zero one down to the seconds, separated by spaces. */
  function FormatUptime(t: nat): (s: string)
    ensures |s| >= 2 && s[|s| - 1] == 's'
  {
    var d := UptimeParts(t);
    if d.days > 0 then
      Unit(d.days, 'd') + " " + Unit(d.hours, 'h') + " " + Unit(d.minutes, 'm') + " " + Unit(d.seconds, 's')
    else if d.hours > 0 then
      Unit(d.hours, 'h') + " " + Unit(d.minutes, 'm') + " " + Unit(d.seconds, 's')
    else if d.minutes > 0 then
      Unit(d.minutes, 'm') + " " + Unit(d.seconds, 's')
    else Unit(d.seconds, 's')
  }

  /** The formatted uptime opens with the numeral of its largest non-zero unit, whose value it
      reads back as, and that unit's letter: days exactly when the uptime is a day or more,
      hours when it is under a day but at least an hour, minutes when it is under an hour but
      at least a minute, and seconds alone below that. */
  lemma FormatUptimeLead(t: nat)
    ensures var s := FormatUptime(t);
            var (n, c) := Lead(UptimeParts(t));
            var k := |NatToString(n)|;
            && k < |s| && s[..k] == NatToString(n)
            && AllDigits(s[..k]) && DigitsValue(s[..k]) == n
            && (s[k] == 'd' <==> t >= 86400)
            && (s[k] == 'h' <==> 3600 <= t < 86400)
            && (s[k] == 'm' <==> 60 <= t < 3600)
            && (s[k] == 's' <==> t < 60)
  {
    var s := FormatUptime(t);
    var (n, c) := Lead(UptimeParts(t));
    var k := |NatToString(n)|;
    assert s[..k + 1] == Unit(n, c);
    assert s[..k] == NatToString(n);
    assert s[k] == c;
    NatToStringRoundTrip(n);
  }

  /** The number of spaces in a string. */
  function Spaces(s: string): nat {
    if s == [] then 0 else (if s[0] == ' ' then 1 else 0) + Spaces(s[1..])
  }

  lemma {:induction false} SpacesConcat(a: string, b: string)
    ensures Spaces(a + b) == Spaces(a) + Spaces(b)
  {
    if a != [] {
      assert (a + b)[0] == a[0];
      assert (a + b)[1..] == a[1..] + b;
      SpacesConcat(a[1..], b);
    } else {
      assert a + b == b;
    }
  }

  lemma {:induction false} NoSpaces(s: string)
    requires AllDigits(s)
    ensures Spaces(s) == 0
  {
    if s != [] {
      NoSpaces(s[1..]);
    }
  }

  /** A shown unit holds no space. */
  lemma UnitSpaces(n: nat, letter: char)
    requires letter != ' '
    ensures Spaces(Unit(n, letter)) == 0
  {
    NoSpaces(NatToString(n));
    SpacesConcat(NatToString(n), [letter]);
  }

  /** Joining two strings with a space adds one space. */
  lemma Separated(a: string, b: string)
    ensures Spaces(a + " " + b) == Spaces(a) + 1 + Spaces(b)
  {
    SpacesConcat(a, " ");
    SpacesConcat(a + " ", b);
  }

  /** The formatted uptime holds one space fewer than it holds units: three from a day on, two
      from an hour on, one from a minute on, none below. */
  lemma FormatUptimeSpaces(t: nat)
    ensures var s := FormatUptime(t);
            && (Spaces(s) == 3 <==> t >= 86400)
            && (Spaces(s) == 2 <==> 3600 <= t < 86400)
            && (Spaces(s) == 1 <==> 60 <= t < 3600)
            && (Spaces(s) == 0 <==> t < 60)
  {
    var d := UptimeParts(t);
    var dd, hh, mm, ss := Unit(d.days, 'd'), Unit(d.hours, 'h'), Unit(d.minutes, 'm'), Unit(d.seconds, 's');
    UnitSpaces(d.days, 'd');
    UnitSpaces(d.hours, 'h');
    UnitSpaces(d.minutes, 'm');
    UnitSpaces(d.seconds, 's');
    if d.days > 0 {
      Separated(dd, hh);
      Separated(dd + " " + hh, mm);
      Separated(dd + " " + hh + " " + mm, ss);
    } else if d.hours > 0 {
      Separated(hh, mm);
      Separated(hh + " " + mm, ss);
    } else if d.minutes > 0 {
      Separated(mm, ss);
    }
  }
}
