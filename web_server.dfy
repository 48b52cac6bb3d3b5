/** The request-level logic of src/frontend/WebServer.cpp: the body parsers,
    the percent/plus decoding of `parseDirectory`, the framing of a response,
    the reason phrase of the status line, the game endpoints' handling and
    replies, and the separator rule of the envelope array in the state JSON.

    Sockets, threads, the mutex, the logger and static files are outside the
    model; each char stands for one byte of the request. */
module WebServer {
  import opened Wrappers
  import opened Text
  import opened RedEnvelopes
  import opened EngineRules
  import Tanks
  import opened GameEngines

  // ---------------------------------------------------------------------
  // parseDirection and parseAction
  // ---------------------------------------------------------------------

  /** `parseDirection`: the first of "up", "down", "left", "right" (in that
      order of priority, not of position) found anywhere in the body. */
  function ParseDirection(payload: string): Tanks.MoveDirection {
    if Contains(payload, "up") then Tanks.Up
    else if Contains(payload, "down") then Tanks.Down
    else if Contains(payload, "left") then Tanks.Left
    else if Contains(payload, "right") then Tanks.Right
    else Tanks.None
  }

  /** The word the browser sends for a direction. */
  function DirectionWord(d: Tanks.MoveDirection): string {
    match d
    case Up => "up"
    case Down => "down"
    case Left => "left"
    case Right => "right"
    case None => ""
  }

  /** A pattern holding a character that never occurs in `s` is not
      found. */
  lemma CharAbsent(s: string, pat: string, i: nat)
    requires i < |pat| && pat[i] !in s
    ensures !Contains(s, pat)
  {
    ContainsExactly(s, pat);
    forall k: nat | k + |pat| <= |s|
      ensures !MatchAt(s, pat, k)
    {
      assert s[k..k + |pat|][i] == s[k + i];
    }
  }

  /** Each direction word is read back as its own direction: none of the
      later words contains an earlier one. */
  lemma ParseDirectionWord(d: Tanks.MoveDirection)
    ensures ParseDirection(DirectionWord(d)) == d
  {
    var w := DirectionWord(d);
    assert w[0..|w|] == w;
    match d {
      case Up =>
      case Down =>
        CharAbsent("down", "up", 0);
      case Left =>
        CharAbsent("left", "up", 0);
        CharAbsent("left", "down", 0);
      case Right =>
        CharAbsent("right", "up", 0);
        CharAbsent("right", "down", 0);
        CharAbsent("right", "left", 0);
      case None =>
        CharAbsent("", "up", 0);
        CharAbsent("", "down", 0);
        CharAbsent("", "left", 0);
        CharAbsent("", "right", 0);
    }
  }

  /** `parseAction`: "resume" wins over "pause", and anything else is
      "toggle". */
  function ParseAction(payload: string): (action: string)
    ensures action == "resume" || action == "pause" || action == "toggle"
  {
    if Contains(payload, "resume") then "resume"
    else if Contains(payload, "pause") then "pause"
    else if Contains(payload, "toggle") then "toggle"
    else "toggle"
  }

  /** An action word is read back as itself. */
  lemma ParseActionIdempotent(payload: string)
    ensures ParseAction(ParseAction(payload)) == ParseAction(payload)
  {
    var a := ParseAction(payload);
    assert MatchAt(a, a, 0);
    ContainsExactly(a, a);
    if a == "pause" {
      CharAbsent("pause", "resume", 0);
    } else if a == "toggle" {
      CharAbsent("toggle", "resume", 0);
      CharAbsent("toggle", "pause", 0);
    }
  }

  // ---------------------------------------------------------------------
  // parseDirectory: the value after "directory=", percent/plus decoded
  // ---------------------------------------------------------------------

  predicate IsHexDigit(c: char) {
    ('0' <= c <= '9') || ('a' <= c <= 'f') || ('A' <= c <= 'F')
  }

  function HexDigitValue(c: char): (v: nat)
    requires IsHexDigit(c)
    ensures v < 16
  {
    if '0' <= c <= '9' then (c as int) - ('0' as int)
    else if 'a' <= c <= 'f' then (c as int) - ('a' as int) + 10
    else (c as int) - ('A' as int) + 10
  }

  /** The number of hex digits in `s` from index `i` on, before the first
      other character. */
  function HexRun(s: string, i: nat): (n: nat)
    requires i <= |s|
    ensures i + n <= |s|
    ensures forall k :: i <= k < i + n ==> IsHexDigit(s[k])
    ensures i + n < |s| ==> !IsHexDigit(s[i + n])
    decreases |s| - i
  {
    if i < |s| && IsHexDigit(s[i]) then 1 + HexRun(s, i + 1) else 0
  }

  /** The number a string of hex digits denotes. */
  function HexValue(s: string): nat
    requires forall k :: 0 <= k < |s| ==> IsHexDigit(s[k])
  {
    if s == [] then 0
    else
      assert IsHexDigit(s[|s| - 1]);
      HexValue(s[..|s| - 1]) * 16 + HexDigitValue(s[|s| - 1])
  }

  /** What `c_str()` shows of a string: everything before its first NUL. */
  function CString(s: string): (r: string)
    ensures |r| <= |s| && r == s[..|r|]
    ensures forall k :: 0 <= k < |r| ==> r[k] != '\0'
    ensures |r| < |s| ==> s[|r|] == '\0'
  {
    if s == [] || s[0] == '\0' then []
    else [s[0]] + CString(s[1..])
  }

  /** The result of std::strtol: the value and the index `endptr` is left
      at (0 when nothing was converted). */
  datatype Conversion = Conversion(value: int, end: nat)

  /** std::strtol(s, &end, 16): leading whitespace, an optional sign, an
      optional "0x"/"0X" that is followed by a hex digit, then hex digits. */
  function Strtol16(s: string): (r: Conversion)
    ensures r.end <= |s|
  {
    var ws := WhitespaceRun(s, 0);
    var negative := ws < |s| && s[ws] == '-';
    var p := if ws < |s| && (s[ws] == '+' || s[ws] == '-') then ws + 1 else ws;
    var digitsAt :=
      if p + 2 < |s| && s[p] == '0' && (s[p + 1] == 'x' || s[p + 1] == 'X') && IsHexDigit(s[p + 2])
      then p + 2 else p;
    var n := HexRun(s, digitsAt);
    if n == 0 then Conversion(0, 0)
    else
      var magnitude: int := HexValue(s[digitsAt..digitsAt + n]);
      Conversion(if negative then 0 - magnitude else magnitude, digitsAt + n)
  }

  /** The two characters after a '%' pass the `*endPtr == '\0'` test:
      strtol consumed everything `c_str()` shows of them. */
  predicate FullHex(hex: string) {
    Strtol16(CString(hex)).end == |CString(hex)|
  }

  /** static_cast<char> of the converted value, as a byte. */
  function ByteChar(v: int): char {
    (v % 256) as char
  }

  /** A '%' at index `i` starts an escape: two more characters follow and
      strtol consumes both of them. */
  predicate EscapeAt(raw: string, i: nat) {
    i + 2 < |raw| && raw[i] == '%' && FullHex(raw[i + 1..i + 3])
  }

  /** The decoding loop of `parseDirectory`, as a reference definition. */
  function DecodeValue(raw: string): string
    decreases |raw|
  {
    if raw == [] then []
    else if EscapeAt(raw, 0) then
      [ByteChar(Strtol16(CString(raw[1..3])).value)] + DecodeValue(raw[3..])
    else if raw[0] == '+' then [' '] + DecodeValue(raw[1..])
    else [raw[0]] + DecodeValue(raw[1..])
  }

  /** The character decoded at index `i` and how many input characters it
      takes. */
  function DecodeStep(raw: string, i: nat): (step: (char, nat))
    requires i < |raw|
    ensures 1 <= step.1 && i + step.1 <= |raw|
  {
    if EscapeAt(raw, i) then (ByteChar(Strtol16(CString(raw[i + 1..i + 3])).value), 3)
    else if raw[i] == '+' then (' ', 1)
    else (raw[i], 1)
  }

  /** One step of the decoding at index `i`, for the loop. */
  lemma DecodeValueAt(raw: string, i: nat)
    requires i < |raw|
    ensures DecodeValue(raw[i..]) == [DecodeStep(raw, i).0] + DecodeValue(raw[i + DecodeStep(raw, i).1..])
  {
    var t := raw[i..];
    assert t[1..] == raw[i + 1..];
    if i + 2 < |raw| {
      assert t[1..3] == raw[i + 1..i + 3] && t[3..] == raw[i + 3..];
    }
    assert EscapeAt(t, 0) == EscapeAt(raw, i);
  }

  /** The body of the loop of `parseDirectory` at index `i`: an escape the
      strtol conversion accepts, a '+', or any other character. */
  method DecodeOne(raw: string, i: nat) returns (c: char, width: nat)
    requires i < |raw|
    ensures (c, width) == DecodeStep(raw, i)
  {
    if raw[i] == '%' && i + 2 < |raw| {
      var hex := raw[i + 1..i + 3];
      var conversion := Strtol16(CString(hex));
      if conversion.end == |CString(hex)| {
        return ByteChar(conversion.value), 3;
      }
    } else if raw[i] == '+' {
      return ' ', 1;
    }
    return raw[i], 1;
  }

  /** The loop of `parseDirectory` over the text after the key. */
  method DecodeFormText(raw: string) returns (decoded: string)
    ensures decoded == DecodeValue(raw)
  {
    decoded := [];
    var i := 0;
    assert raw[i..] == raw;
    while i < |raw|
      invariant i <= |raw|
      invariant decoded + DecodeValue(raw[i..]) == DecodeValue(raw)
    {
      DecodeValueAt(raw, i);
      var c, width := DecodeOne(raw, i);
      decoded := decoded + [c];
      i := i + width;
    }
  }

  const DirectoryKey: string := "directory="

  /** What `parseDirectory` returns: empty when the key is absent, otherwise
      the decoded text of everything after its first occurrence, including
      any later '&'. */
  function DirectoryValue(payload: string): (r: string)
    ensures !Contains(payload, DirectoryKey) ==> r == []
  {
    match Find(payload, DirectoryKey, 0)
    case None => []
    case Some(pos) => DecodeValue(payload[pos + |DirectoryKey|..])
  }

  /** `parseDirectory`. */
  method ParseDirectory(payload: string) returns (decoded: string)
    ensures decoded == DirectoryValue(payload)
  {
    var pos := Find(payload, DirectoryKey, 0);
    if pos.None? {
      return [];
    }
    decoded := DecodeFormText(payload[pos.value + |DirectoryKey|..]);
  }

  /** Decoding never lengthens the text. */
  lemma {:induction false} DecodeValueShorter(raw: string)
    ensures |DecodeValue(raw)| <= |raw|
    decreases |raw|
  {
    if raw != [] {
      DecodeValueShorter(raw[1..]);
      if 2 < |raw| {
        DecodeValueShorter(raw[3..]);
      }
    }
  }

  /** Text without '%' and '+' is returned unchanged. */
  lemma {:induction false} DecodeValuePlain(raw: string)
    requires forall k :: 0 <= k < |raw| ==> raw[k] != '%' && raw[k] != '+'
    ensures DecodeValue(raw) == raw
    decreases |raw|
  {
    if raw != [] {
      DecodeValuePlain(raw[1..]);
    }
  }

  function HexDigitChar(d: nat): (c: char)
    requires d < 16
    ensures IsHexDigit(c) && HexDigitValue(c) == d
  {
    if d < 10 then ('0' as int + d) as char else ('A' as int + d - 10) as char
  }

  /** Percent-encoding of bytes: every char as '%' and two hex digits. */
  function PercentEncode(s: string): string
    requires forall k :: 0 <= k < |s| ==> (s[k] as int) < 256
  {
    if s == [] then []
    else ['%', HexDigitChar((s[0] as int) / 16), HexDigitChar((s[0] as int) % 16)] + PercentEncode(s[1..])
  }

  lemma EscapeDecodes(c: char)
    requires (c as int) < 256
    ensures var hex := [HexDigitChar((c as int) / 16), HexDigitChar((c as int) % 16)];
      FullHex(hex) && ByteChar(Strtol16(CString(hex)).value) == c
  {
    var hex := [HexDigitChar((c as int) / 16), HexDigitChar((c as int) % 16)];
    assert CString(hex[1..]) == [hex[1]] + CString(hex[1..][1..]);
    assert CString(hex) == hex;
    assert WhitespaceRun(hex, 0) == 0;
    assert HexRun(hex, 0) == 2;
    assert hex[0..2] == hex && hex[..1] == [hex[0]] && hex[..1][..0] == [];
    assert HexValue(hex[..1]) == (c as int) / 16;
    assert HexValue(hex) == HexValue(hex[..1]) * 16 + (c as int) % 16;
  }

  /** Decoding undoes percent-encoding: every byte string can be sent. */
  lemma {:induction false} DecodeValueOfEncoding(s: string)
    requires forall k :: 0 <= k < |s| ==> (s[k] as int) < 256
    ensures DecodeValue(PercentEncode(s)) == s
    decreases |s|
  {
    if s != [] {
      var e := PercentEncode(s);
      EscapeDecodes(s[0]);
      assert e[1..3] == [HexDigitChar((s[0] as int) / 16), HexDigitChar((s[0] as int) % 16)];
      assert e[3..] == PercentEncode(s[1..]);
      DecodeValueOfEncoding(s[1..]);
    }
  }

  /** A form whose text starts with the directory key yields the decoding
      of everything after it. */
  lemma DirectoryValueAfterKey(rest: string)
    ensures DirectoryValue(DirectoryKey + rest) == DecodeValue(rest)
  {
    FindPrefix(DirectoryKey, rest);
    assert (DirectoryKey + rest)[|DirectoryKey|..] == rest;
  }

  /** The value of a form whose only field is `directory`, encoded, is read
      back exactly. */
  lemma DirectoryValueRoundTrip(v: string)
    requires forall k :: 0 <= k < |v| ==> (v[k] as int) < 256
    ensures DirectoryValue(DirectoryKey + PercentEncode(v)) == v
  {
    DirectoryValueAfterKey(PercentEncode(v));
    DecodeValueOfEncoding(v);
  }

  // ---------------------------------------------------------------------
  // Responses
  // ---------------------------------------------------------------------

  const CRLF: string := "\r\n"

  /** The header block `sendHttpResponse` writes before the body. */
  function ResponseHead(statusLine: string, bodyLength: nat, contentType: string): string {
    statusLine + CRLF +
    "Content-Type: " + contentType + CRLF +
    "Content-Length: " + NatToDecimal(bodyLength) + CRLF +
    "Connection: close" + CRLF + CRLF
  }

  /** `sendHttpResponse`: the bytes sent. */
  function HttpResponse(statusLine: string, body: string, contentType: string): string {
    ResponseHead(statusLine, |body|, contentType) + body
  }

  /** The response opens with the status line, announces the body's exact
      length, ends its head with a blank line, and carries the body last,
      unchanged. */
  lemma ResponseFraming(statusLine: string, body: string, contentType: string)
    ensures var r := HttpResponse(statusLine, body, contentType);
      var head := ResponseHead(statusLine, |body|, contentType);
      && StartsWith(r, statusLine + CRLF)
      && r == head + body && r[|head|..] == body
      && head[|head| - 4..] == CRLF + CRLF
      && DecimalValue(NatToDecimal(|body|)) == |body|
  {
    var r := HttpResponse(statusLine, body, contentType);
    var head := ResponseHead(statusLine, |body|, contentType);
    assert r[..|statusLine + CRLF|] == statusLine + CRLF;
    NatToDecimalRoundTrip(|body|);
  }

  /** The reason phrase of the status line: only 200 and 400 have their own,
      every other code (403 and 404 from the code statistics endpoint, 500)
      reads "Error". */
  function ReasonPhrase(statusCode: int): (phrase: string)
    ensures statusCode == 200 ==> phrase == "OK"
    ensures statusCode == 400 ==> phrase == "Bad Request"
    ensures statusCode != 200 && statusCode != 400 ==> phrase == "Error"
  {
    if statusCode == 200 then "OK" else if statusCode == 400 then "Bad Request" else "Error"
  }

  /** The status line `sendHttpResponse` writes. */
  function StatusLine(statusCode: int): string {
    "HTTP/1.1 " + IntToDecimal(statusCode) + " " + ReasonPhrase(statusCode)
  }

  function BoolText(b: bool): string {
    if b then "true" else "false"
  }

  // ---------------------------------------------------------------------
  // The game endpoints of handleApiRequest
  // ---------------------------------------------------------------------

  /** The reply of POST /move. */
  function MoveReply(moved: bool, timeUp: bool): string {
    "{\"success\":" + BoolText(moved && !timeUp) + ",\"timeUp\":" + BoolText(timeUp) + "}"
  }

  /** The reply of /move reports exactly whether the move succeeded and
      whether time was up. */
  lemma MoveReplyMeaning(m1: bool, t1: bool, m2: bool, t2: bool)
    ensures MoveReply(m1, t1) == MoveReply(m2, t2) <==> (m1 && !t1) == (m2 && !t2) && t1 == t2
  {
    var prefix := "{\"success\":";
    if MoveReply(m1, t1) == MoveReply(m2, t2) {
      var s1 := BoolText(m1 && !t1);
      var s2 := BoolText(m2 && !t2);
      assert MoveReply(m1, t1)[|prefix|] == s1[0];
      assert MoveReply(m2, t2)[|prefix|] == s2[0];
      assert s1 == s2;
      var cut := |prefix| + |s1| + |",\"timeUp\":"|;
      assert MoveReply(m1, t1)[cut] == BoolText(t1)[0];
      assert MoveReply(m2, t2)[cut] == BoolText(t2)[0];
    }
  }

  /** POST /move: `moveTank` runs only when time is not up at the handler's
      clock reading `now` and the body names a direction; `moveTank` reads the
      clock again (`moveNow`) and may still refuse. The reply's success is
      `moved && !timeUp`. */
  method HandleMove(engine: GameEngine, body: string, now: real, moveNow: real)
    returns (reply: string, moved: bool, timeUp: bool)
    requires engine.Valid()
    modifies engine, engine.tank
    ensures engine.Valid()
    ensures timeUp == TimeUp(old(engine.ClockState()), now, engine.config.timeLimitSeconds)
    ensures reply == MoveReply(moved, timeUp)
    ensures engine.ClockState() == old(engine.ClockState()) && engine.seed == old(engine.seed)
    ensures timeUp || ParseDirection(body) == Tanks.None ==> !moved && unchanged(engine, engine.tank)
    ensures !timeUp && ParseDirection(body) != Tanks.None &&
            (TimeUp(old(engine.ClockState()), moveNow, engine.config.timeLimitSeconds) || old(engine.paused)) ==>
      !moved && unchanged(engine, engine.tank)
    ensures !timeUp && ParseDirection(body) != Tanks.None &&
            !(TimeUp(old(engine.ClockState()), moveNow, engine.config.timeLimitSeconds) || old(engine.paused)) ==>
      var step := Tanks.MoveSpec(old(engine.tank.State()), ParseDirection(body),
                                 engine.config.worldWidth, engine.config.worldHeight);
      && engine.tank.State() == step.0
      && moved == step.1
      && engine.PassStateOf() ==
         CollectFrom(engine.generator, engine.seed, engine.config,
                     engine.SweepFrom(old(engine.tank.exactX), old(engine.tank.exactY)), old(engine.PassStateOf()), 0)
  {
    var direction := ParseDirection(body);
    moved := false;
    timeUp := engine.IsTimeUp(now);
    if !timeUp && direction != Tanks.None {
      moved := engine.MoveTank(direction, moveNow);
    }
    reply := MoveReply(moved, timeUp);
  }

  /** The clock after POST /pause with the given action. */
  function PauseAction(action: string, c: Clock, now: real): Clock {
    if action == "pause" then PauseClock(c, now)
    else if action == "resume" then ResumeClock(c, now)
    else ToggleClock(c, now)
  }

  /** "pause" always ends paused, "resume" always ends running, and anything
      else flips the state. */
  lemma PauseActionMeaning(payload: string, c: Clock, now: real)
    ensures var action := ParseAction(payload);
      PauseAction(action, c, now).paused ==
        (if action == "pause" then true else if action == "resume" then false else !c.paused)
  {
  }

  /** POST /pause. */
  method HandlePause(engine: GameEngine, body: string, now: real) returns (reply: string)
    requires engine.Valid()
    modifies engine
    ensures engine.Valid()
    ensures engine.ClockState() == PauseAction(ParseAction(body), old(engine.ClockState()), now)
    ensures reply == "{\"success\":true,\"paused\":" + BoolText(engine.paused) + "}"
  {
    var action := ParseAction(body);
    if action == "pause" {
      engine.Pause(now);
    } else if action == "resume" {
      engine.Resume(now);
    } else {
      var _ := engine.TogglePause(now);
    }
    reply := "{\"success\":true,\"paused\":" + BoolText(engine.paused) + "}";
  }

  /** POST /rain: between 5 and 10 bonus envelopes, drawn with one raw
      integer and appended to the list; `spawned` is how many were appended. */
  method HandleRain(engine: GameEngine) returns (reply: string, spawned: int)
    requires engine.Valid()
    modifies engine
    ensures engine.Valid()
    ensures 5 <= spawned <= 10
    ensures spawned == DrawValue(engine.generator, engine.seed, old(engine.draws), 5, 10)
    ensures engine.PassStateOf() ==
      SpawnAppend(SpawnerOf(engine.generator, engine.seed, engine.config, engine.tank.position),
                  old(engine.PassStateOf()).(cursor := old(engine.draws) + 1), spawned)
    ensures |engine.envelopes| == |old(engine.envelopes)| + spawned
    ensures engine.envelopes[..|old(engine.envelopes)|] == old(engine.envelopes)
    ensures FreshBlock(engine.envelopes, |old(engine.envelopes)|, old(engine.nextEnvelopeId), engine.config)
    ensures engine.nextEnvelopeId == old(engine.nextEnvelopeId) + spawned && engine.stats == old(engine.stats)
    ensures engine.ClockState() == old(engine.ClockState())
    ensures reply == "{\"success\":true,\"spawned\":" + IntToDecimal(spawned) + "}"
  {
    ghost var before := engine.PassStateOf().(cursor := engine.draws + 1);
    ghost var spawner := SpawnerOf(engine.generator, engine.seed, engine.config, engine.tank.position);
    spawned := engine.SpawnBonusEnvelopes(5, 10);
    SpawnerOfWellFormed(engine.generator, engine.seed, engine.config, engine.tank.position);
    SpawnAppendShape(spawner, engine.config, before, spawned);
    reply := "{\"success\":true,\"spawned\":" + IntToDecimal(spawned) + "}";
  }

  /** POST /reset: reseed from the system clock's tick count, truncated to
      unsigned int, then reset. */
  method HandleReset(engine: GameEngine, clockTicks: nat, now: real) returns (reply: string)
    requires engine.Valid()
    modifies engine, engine.tank
    ensures engine.Valid()
    ensures engine.seed == clockTicks % 0x1_0000_0000
    ensures engine.tank.position == Center(engine.config)
    ensures engine.tank.currentMomentum == 0.0 && engine.tank.lastDirection == Tanks.None
    ensures engine.tank.exactX == Center(engine.config).x as real && engine.tank.exactY == Center(engine.config).y as real
    ensures engine.ClockState() == Clock(Some(now), false, 0.0, None)
    ensures engine.PassStateOf() ==
      CollectFrom(engine.generator, engine.seed, engine.config,
                  engine.SweepFrom(engine.tank.exactX, engine.tank.exactY),
                  SpawnAppend(SpawnerOf(engine.generator, engine.seed, engine.config, Center(engine.config)),
                              PassState([], 0, 0, CollectionStats(0, 0)), engine.config.initialEnvelopeCount), 0)
    ensures reply == "{\"success\":true}"
  {
    engine.SetRandomSeed(clockTicks % 0x1_0000_0000);
    var _ := engine.Reset(now);
    reply := "{\"success\":true}";
  }

  /** The refusals of POST /codestats, checked in this order: a directory
      outside the workspace is 403, and a failed canonicalisation (the
      analyzer's `directoryExists` false) is 404; None when the statistics
      are served. */
  function CodeStatsRefusal(withinWorkspace: bool, directoryExists: bool): (r: Option<(int, string)>)
    ensures r.Some? ==> r.value.0 in {403, 404} && ReasonPhrase(r.value.0) == "Error"
    ensures r.None? <==> withinWorkspace && directoryExists
    ensures !withinWorkspace ==> r.Some? && r.value.0 == 403
  {
    if !withinWorkspace then Some((403, "{\"success\":false,\"error\":\"Directory must stay within workspace.\"}"))
    else if !directoryExists then Some((404, "{\"success\":false,\"error\":\"Directory does not exist.\"}"))
    else None
  }

  /** The directory analysed: the decoded `directory` field, or "." when it
      is empty. */
  function CodeStatsTarget(body: string): (target: string)
    ensures target != []
    ensures DirectoryValue(body) != [] ==> target == DirectoryValue(body)
  {
    var directory := DirectoryValue(body);
    if directory == [] then "." else directory
  }

  /** POST /codestats, given what the analyzer reports for a directory
      (its `withinWorkspace` and `directoryExists` flags) and the JSON the
      statistics render to. */
  function CodeStatsReply(body: string, analyze: string -> (bool, bool), render: string -> string): (r: (int, string))
    ensures var outcome := analyze(CodeStatsTarget(body));
      && (r.0 == 200 <==> outcome.0 && outcome.1)
      && (r.0 == 200 ==> r.1 == render(CodeStatsTarget(body)))
      && (r.0 != 200 ==> Some(r) == CodeStatsRefusal(outcome.0, outcome.1))
  {
    var target := CodeStatsTarget(body);
    var outcome := analyze(target);
    match CodeStatsRefusal(outcome.0, outcome.1)
    case Some(refusal) => refusal
    case None => (200, render(target))
  }

  /** POST /codestats. */
  method HandleCodeStats(body: string, analyze: string -> (bool, bool), render: string -> string)
    returns (reply: string, statusCode: int)
    ensures (statusCode, reply) == CodeStatsReply(body, analyze, render)
  {
    var directory := ParseDirectory(body);
    var target := if directory == [] then "." else directory;
    var outcome := analyze(target);
    statusCode := 200;
    if !outcome.0 {
      statusCode := 403;
      reply := "{\"success\":false,\"error\":\"Directory must stay within workspace.\"}";
    } else if !outcome.1 {
      statusCode := 404;
      reply := "{\"success\":false,\"error\":\"Directory does not exist.\"}";
    } else {
      reply := render(target);
    }
  }

  /** The endpoints `handleApiRequest` serves. */
  datatype Endpoint = MoveEndpoint | ResetEndpoint | RainEndpoint | PauseEndpoint | CodeStatsEndpoint | Unsupported

  /** Only POST requests to the five paths reach an endpoint. */
  function ApiRoute(verb: string, path: string): (e: Endpoint)
    ensures e != Unsupported ==> verb == "POST"
    ensures e == MoveEndpoint <==> verb == "POST" && path == "/move"
    ensures e == ResetEndpoint <==> verb == "POST" && path == "/reset"
    ensures e == RainEndpoint <==> verb == "POST" && path == "/rain"
    ensures e == PauseEndpoint <==> verb == "POST" && path == "/pause"
    ensures e == CodeStatsEndpoint <==> verb == "POST" && path == "/codestats"
  {
    if verb != "POST" then Unsupported
    else if path == "/move" then MoveEndpoint
    else if path == "/reset" then ResetEndpoint
    else if path == "/rain" then RainEndpoint
    else if path == "/pause" then PauseEndpoint
    else if path == "/codestats" then CodeStatsEndpoint
    else Unsupported
  }

  const UnsupportedReply: string := "{\"error\":\"Unsupported API path\"}"

  /** `handleApiRequest`: always JSON; the game endpoints answer 200, the
      code statistics endpoint as `CodeStatsReply` says, and any other
      request 404 without touching the engine. `now` is the handler's clock
      reading and `moveNow` the second one `moveTank` takes. */
  method HandleApiRequest(engine: GameEngine, verb: string, path: string, body: string,
                          now: real, moveNow: real, clockTicks: nat,
                          analyze: string -> (bool, bool), render: string -> string)
    returns (reply: string, contentType: string, statusCode: int)
    requires engine.Valid()
    modifies engine, engine.tank
    ensures engine.Valid()
    ensures contentType == "application/json"
    ensures ApiRoute(verb, path) in {MoveEndpoint, ResetEndpoint, RainEndpoint, PauseEndpoint} ==> statusCode == 200
    ensures ApiRoute(verb, path) == CodeStatsEndpoint ==>
      (statusCode, reply) == CodeStatsReply(body, analyze, render) && unchanged(engine, engine.tank)
    ensures ApiRoute(verb, path) == Unsupported ==>
      statusCode == 404 && reply == UnsupportedReply && unchanged(engine, engine.tank)
    ensures ApiRoute(verb, path) == PauseEndpoint ==>
      engine.ClockState() == PauseAction(ParseAction(body), old(engine.ClockState()), now)
    ensures ApiRoute(verb, path) == ResetEndpoint ==> engine.seed == clockTicks % 0x1_0000_0000
  {
    contentType := "application/json";
    statusCode := 200;
    match ApiRoute(verb, path)
    case MoveEndpoint =>
      var moved, timeUp;
      reply, moved, timeUp := HandleMove(engine, body, now, moveNow);
    case ResetEndpoint =>
      reply := HandleReset(engine, clockTicks, now);
    case RainEndpoint =>
      var spawned;
      reply, spawned := HandleRain(engine);
    case PauseEndpoint =>
      reply := HandlePause(engine, body, now);
    case CodeStatsEndpoint =>
      reply, statusCode := HandleCodeStats(body, analyze, render);
    case Unsupported =>
      statusCode := 404;
      reply := UnsupportedReply;
  }

  // ---------------------------------------------------------------------
  // The envelope array of buildStateJson
  // ---------------------------------------------------------------------

  function SizeName(s: EnvelopeSize): string {
    match s
    case Small => "Small"
    case Medium => "Medium"
    case Large => "Large"
  }

  /** One envelope object of the state JSON. */
  function EnvelopeJson(e: RedEnvelope): string {
    "{\"id\":" + NatToDecimal(e.id) +
    ",\"x\":" + IntToDecimal(e.position.x) +
    ",\"y\":" + IntToDecimal(e.position.y) +
    ",\"size\":\"" + SizeName(e.size) + "\"," +
    "\"value\":" + IntToDecimal(e.value) +
    ",\"radius\":" + IntToDecimal(e.collectionRadius) + "}"
  }

  /** Items with a comma between consecutive ones. */
  function JoinItems(items: seq<string>): string {
    if items == [] then []
    else if |items| == 1 then items[0]
    else JoinItems(items[..|items| - 1]) + "," + items[|items| - 1]
  }

  /** Joining is associative over a split, with one comma at the seam; the
      last item closes the text, so there is no trailing comma. */
  lemma {:induction false} JoinItemsAppend(a: seq<string>, b: seq<string>)
    requires a != [] && b != []
    ensures JoinItems(a + b) == JoinItems(a) + "," + JoinItems(b)
    decreases |b|
  {
    if |b| == 1 {
      assert (a + b)[..|a + b| - 1] == a;
    } else {
      var b' := b[..|b| - 1];
      assert (a + b)[..|a + b| - 1] == a + b';
      JoinItemsAppend(a, b');
    }
  }

  /** The joined text is the items plus exactly |items| - 1 commas. */
  lemma {:induction false} JoinItemsLength(items: seq<string>)
    requires items != []
    ensures |JoinItems(items)| == TotalLength(items) + |items| - 1
  {
    if |items| > 1 {
      JoinItemsLength(items[..|items| - 1]);
      assert TotalLength(items) == TotalLength(items[..|items| - 1]) + |items[|items| - 1]|;
    }
  }

  function TotalLength(items: seq<string>): nat {
    if items == [] then 0 else TotalLength(items[..|items| - 1]) + |items[|items| - 1]|
  }

  /** The envelope objects in index order. */
  function EnvelopeObjects(envelopes: seq<RedEnvelope>): seq<string> {
    seq(|envelopes|, i requires 0 <= i < |envelopes| => EnvelopeJson(envelopes[i]))
  }

  /** One more item joined: the first stands alone, every later one comes
      after a comma. */
  lemma JoinItemsStep(items: seq<string>, i: nat)
    requires i < |items|
    ensures JoinItems(items[..i + 1]) == if i == 0 then items[0] else JoinItems(items[..i]) + "," + items[i]
  {
    assert items[..i + 1][..i] == items[..i];
  }

  /** The loop of `buildStateJson` over the envelopes: each object in index
      order, followed by a comma when another one comes after it. */
  method EnvelopesArray(envelopes: seq<RedEnvelope>) returns (text: string)
    ensures text == "[" + JoinItems(EnvelopeObjects(envelopes)) + "]"
  {
    text := JoinArray(EnvelopeObjects(envelopes));
  }

  /** The comma-separated array the loop of `buildStateJson` writes. */
  method JoinArray(objects: seq<string>) returns (text: string)
    ensures text == "[" + JoinItems(objects) + "]"
  {
    var items := "";
    var i := 0;
    while i < |objects|
      invariant i <= |objects|
      invariant i < |objects| ==> items == if i == 0 then "" else JoinItems(objects[..i]) + ","
      invariant i == |objects| ==> items == JoinItems(objects[..i])
    {
      JoinItemsStep(objects, i);
      items := items + objects[i];
      if i + 1 < |objects| {
        items := items + ",";
      }
      i := i + 1;
    }
    assert objects[..i] == objects;
    text := "[" + items + "]";
  }
}
