/**
 * The `react:dev:check` console command: in development it validates the configured
 * Vite server URL and probes `<server>/@vite/client`; the exit code says whether the
 * server answered. The HTTP request is an input: what it returned, as a `Probe`.
 */
module DevCheckCommand {
  import opened Wrappers
  import opened Strings

  const Success: int := 0
  const Failure: int := 1

  /** What `@file_get_contents` gave: `false`, or the body and `$http_response_header[0]` if set. */
  datatype Probe = FetchFailed | Fetched(statusLine: Option<string>, body: string)

  /** The URL probed: the server without trailing slashes, then `/@vite/client`. */
  function ProbeUrl(server: string): (url: string)
    ensures EndsWith(url, "/@vite/client")
  {
    var url := TrimRight(server, '/') + "/@vite/client";
    assert url[|url| - |"/@vite/client"|..] == "/@vite/client";
    url
  }

  /** Trailing slashes on the configured server do not change the probed URL. */
  lemma ProbeUrlIgnoresTrailingSlash(server: string)
    ensures ProbeUrl(server + "/") == ProbeUrl(server)
  {
    var s := server + "/";
    assert s[..|s| - 1] == server;
  }

  /** PCRE's `\s`: space, tab, line feed, vertical tab, form feed, carriage return. */
  predicate IsRegexSpace(c: char) {
    c == ' ' || c == '\t' || c == '\n' || c == '\U{000B}' || c == '\U{000C}' || c == '\r'
  }

  /**
   * `HTTP\/\d\.\d\s+(\d+)` tried at position `i`: the captured status as a number,
   * or `None` when the pattern does not match there. The `(int)` cast of the
   * all-digit capture is its decimal value.
   */
  function StatusAt(line: string, i: nat): (r: Option<nat>)
    ensures r.Some? ==> i + 10 <= |line| && OccursAt(line, "HTTP/", i)
  {
    if VersionAt(line, i) then StatusAfterVersion(line[i + 8..]) else None
  }

  /** `HTTP\/\d\.\d` at position `i`. */
  predicate VersionAt(line: string, i: nat) {
    i + 8 <= |line| && line[i..i + 5] == "HTTP/" && IsDigit(line[i + 5]) && line[i + 6] == '.' && IsDigit(line[i + 7])
  }

  /** `\s+(\d+)` at the start of `rest`: the captured digits' value. */
  function StatusAfterVersion(rest: string): (r: Option<nat>)
    ensures r.Some? ==> |rest| >= 2
  {
    var spaces := Run(rest, IsRegexSpace);
    if 0 < spaces < |rest| && IsDigit(rest[spaces]) then
      var tail := rest[spaces..];
      Some(DecValue(tail[..DigitRun(tail)]))
    else None
  }

  /** The leftmost match from position `i` on. */
  function StatusFrom(line: string, i: nat): (r: Option<nat>)
    ensures r.Some? ==> exists k :: i <= k && StatusAt(line, k) == r
                                   && forall j :: i <= j < k ==> StatusAt(line, j).None?
    ensures r.None? ==> forall k :: i <= k <= |line| ==> StatusAt(line, k).None?
    decreases |line| - i
  {
    if i >= |line| then None
    else if StatusAt(line, i).Some? then StatusAt(line, i)
    else StatusFrom(line, i + 1)
  }

  /** `preg_match` on the status line: the status the leftmost match captures. */
  function StatusCode(line: string): Option<nat>
  {
    StatusFrom(line, 0)
  }

  /** `checkViteServer`: a matched status decides; otherwise a non-empty body means up. */
  predicate IsAccessible(p: Probe) {
    match p
    case FetchFailed => false
    case Fetched(statusLine, body) =>
      if statusLine.Some? && StatusCode(statusLine.value).Some? then
        var code := StatusCode(statusLine.value).value;
        200 <= code < 300
      else !PhpEmpty(body)
  }

  /** One space, then digits, then a non-digit: the digits are captured. */
  lemma StatusAfterSpace(digits: string, after: string)
    requires |digits| > 0 && AllDigits(digits)
    requires after == [] || !IsDigit(after[0])
    ensures StatusAfterVersion(" " + digits + after) == Some(DecValue(digits))
  {
    var rest := " " + digits + after;
    var tail := digits + after;
    assert rest == [' '] + tail;
    assert rest[1..] == tail;
    assert IsDigit(tail[0]);
    assert !IsRegexSpace(rest[1]);
    RunIs(rest, IsRegexSpace, 1);
    DigitRunOfDigitsThenOther(digits, after);
    assert tail[..|digits|] == digits;
  }

  /** `HTTP/<d>.<d>` at the start matches the version part, whatever follows it. */
  lemma VersionAtStart(head: string, rest: string)
    requires |head| == 8 && head[..5] == "HTTP/" && IsDigit(head[5]) && head[6] == '.' && IsDigit(head[7])
    ensures VersionAt(head + rest, 0) && (head + rest)[8..] == rest
  {
    var line := head + rest;
    assert forall k :: 0 <= k < 8 ==> line[k] == head[k];
    assert line[0..5] == head[..5];
  }

  /** The pattern matches at the start of `HTTP/<d>.<d> <digits>...` and captures the digits. */
  lemma StatusAtStart(major: char, minor: char, digits: string, after: string)
    requires IsDigit(major) && IsDigit(minor)
    requires |digits| > 0 && AllDigits(digits)
    requires after == [] || !IsDigit(after[0])
    ensures StatusAt(("HTTP/" + [major, '.', minor]) + (" " + digits + after), 0) == Some(DecValue(digits))
  {
    var head := "HTTP/" + [major, '.', minor];
    assert head[..5] == "HTTP/";
    VersionAtStart(head, " " + digits + after);
    StatusAfterSpace(digits, after);
  }

  /** The status of an `HTTP/1.x` status line is read back exactly. */
  lemma StatusOfStatusLine(minor: nat, code: nat, reason: string)
    requires minor < 10
    ensures StatusCode("HTTP/1." + [DigitChar(minor)] + " " + NatToString(code) + " " + reason) == Some(code)
  {
    var digits := NatToString(code);
    var line := "HTTP/1." + [DigitChar(minor)] + " " + digits + " " + reason;
    assert line == ("HTTP/" + ['1', '.', DigitChar(minor)]) + (" " + digits + (" " + reason));
    StatusAtStart('1', DigitChar(minor), digits, " " + reason);
    DecValueOfNatToString(code);
  }

  /** With a status line, only a 2xx status counts, whatever the body. */
  lemma StatusDecides(minor: nat, code: nat, reason: string, body: string)
    requires minor < 10
    ensures IsAccessible(Fetched(Some("HTTP/1." + [DigitChar(minor)] + " " + NatToString(code) + " " + reason), body))
            <==> 200 <= code < 300
  {
    StatusOfStatusLine(minor, code, reason);
  }

  /** Without a usable status line the body decides; `"0"` counts as empty. */
  lemma BodyDecidesWithoutStatus(line: Option<string>, body: string)
    requires line.None? || StatusCode(line.value).None?
    ensures IsAccessible(Fetched(line, body)) <==> body != "" && body != "0"
  {
  }

  /** An `HTTP/2` status line does not match the pattern, so a 404 with a body counts as up. */
  lemma Http2StatusIsIgnored()
    ensures IsAccessible(Fetched(Some("HTTP/2 404"), "Not Found"))
  {
    var line := "HTTP/2 404";
    assert StatusAt(line, 0).None? by {
      assert line[6] != '.';
    }
    assert forall k :: 1 <= k <= |line| ==> StatusAt(line, k).None? by {
      forall k | 1 <= k <= |line|
        ensures StatusAt(line, k).None?
      {
        assert k + 10 > |line|;
      }
    }
  }

  /** The log records the command writes. */
  datatype LogRecord = CheckPassed(server: string) | CheckFailed(server: string)

  /** The exit code, the URL probed (if any) and the log. */
  datatype Outcome = Outcome(exitCode: int, probed: Option<string>, log: seq<LogRecord>)

  /**
   * `execute`. `isUrl` is `filter_var(..., FILTER_VALIDATE_URL)` being truthy; `fetch`
   * answers the probe.
   */
  function Execute(isDev: bool, server: string, isUrl: string -> bool, fetch: string -> Probe): (o: Outcome)
    ensures o.exitCode == Success || o.exitCode == Failure
    ensures !isDev ==> o == Outcome(Success, None, [])
    ensures isDev && !isUrl(server) ==> o == Outcome(Failure, None, [])
    ensures o.probed.Some? <==> isDev && isUrl(server)
    ensures o.probed.Some? ==>
              o.probed.value == ProbeUrl(server)
              && (o.exitCode == Success <==> IsAccessible(fetch(o.probed.value)))
              && o.log == [if o.exitCode == Success then CheckPassed(server) else CheckFailed(server)]
  {
    if !isDev then Outcome(Success, None, [])
    else if !isUrl(server) then Outcome(Failure, None, [])
    else
      var url := ProbeUrl(server);
      if IsAccessible(fetch(url)) then Outcome(Success, Some(url), [CheckPassed(server)])
      else Outcome(Failure, Some(url), [CheckFailed(server)])
  }

  /** The command fails exactly when in development and the URL is invalid or the server is down. */
  lemma ExitCodeDecision(isDev: bool, server: string, isUrl: string -> bool, fetch: string -> Probe)
    ensures Execute(isDev, server, isUrl, fetch).exitCode == Failure
            <==> isDev && (!isUrl(server) || !IsAccessible(fetch(ProbeUrl(server))))
  {
  }
}
