/**
 * The serial link as a value, and what the driver's line transport and its
 * three response-matching policies do to it.
 *
 * `rx` holds the characters received and not yet read, `script` the chunks
 * the scripted modem will deliver, one per 100 ms sleep of a poll loop, and
 * `sent` the log of everything written. A deadline of `t` seconds is
 * `TicksPerSecond * t` poll iterations.
 */
module Wire {
  import opened Text

  datatype PortState = PortState(rx: string, script: seq<string>, sent: seq<string>)

  /** Poll iterations per second of deadline: each iteration ends in a 100 ms sleep. */
  const TicksPerSecond: nat := 10

  /** The poll budget of a wait with base timeout `timeoutSec` plus `additionalSec`. */
  function Polls(timeoutSec: nat, additionalSec: nat): nat {
    TicksPerSecond * (timeoutSec + additionalSec)
  }

  /** One sleep of a poll loop: the modem delivers its next scripted chunk, if any. */
  function Tick(p: PortState): (q: PortState)
    ensures q.sent == p.sent
    ensures Size(q) <= Size(p)
    ensures p.script != [] ==> Size(q) < Size(p)
  {
    if p.script == [] then p
    else PortState(p.rx + p.script[0], p.script[1..], p.sent)
  }

  function TotalLength(chunks: seq<string>): nat
    decreases |chunks|
  {
    if chunks == [] then 0 else |chunks[0]| + TotalLength(chunks[1..])
  }

  /** A measure that every read and every delivery of a chunk decreases. */
  function Size(p: PortState): nat {
    |p.rx| + TotalLength(p.script) + |p.script|
  }

  // ---------------------------------------------------------------- lines

  /** The line terminator `\r\n` starts at position `i` of `s`. */
  predicate EolAt(s: string, i: int) {
    0 <= i && i + 1 < |s| && s[i] == '\r' && s[i + 1] == '\n'
  }

  predicate NoEol(s: string) {
    forall i :: 0 <= i < |s| ==> !EolAt(s, i)
  }

  /** Position of the first `\r\n` in `s`, or `|s|` when there is none. */
  function FirstEol(s: string): (i: nat)
    ensures i <= |s|
    ensures i < |s| ==> EolAt(s, i)
    ensures forall j :: 0 <= j < i ==> !EolAt(s, j)
    decreases |s|
  {
    if |s| < 2 then |s|
    else if s[0] == '\r' && s[1] == '\n' then 0
    else
      var k := FirstEol(s[1..]);
      assert forall j :: 1 <= j < 1 + k ==> (EolAt(s, j) <==> EolAt(s[1..], j - 1));
      1 + k
  }

  /**
   * What one `__readLine` takes from the received characters: the text
   * before the first `\r\n` and what follows that terminator, or the whole
   * buffer when no terminator has arrived.
   */
  function CutLine(rx: string): (r: (string, string))
    ensures NoEol(r.0)
    ensures rx == r.0 + "\r\n" + r.1 || (rx == r.0 && r.1 == "")
    ensures rx != "" ==> |r.1| < |rx|
    ensures rx == "" ==> r == ("", "")
  {
    var i := FirstEol(rx);
    if i < |rx| then
      assert forall j :: EolAt(rx[..i], j) ==> EolAt(rx, j);
      assert rx == rx[..i] + "\r\n" + rx[i + 2..];
      (rx[..i], rx[i + 2..])
    else
      (rx, "")
  }

  /** A line followed by its terminator is cut back out, leaving the rest untouched. */
  lemma CutFramed(line: string, rest: string)
    requires NoEol(line)
    ensures CutLine(line + "\r\n" + rest) == (line, rest)
  {
    var s := line + "\r\n" + rest;
    assert EolAt(s, |line|);
    forall j | 0 <= j < |line|
      ensures !EolAt(s, j)
    {
      if j + 1 < |line| {
        assert !EolAt(line, j);
      } else {
        assert s[j + 1] == '\r';
      }
    }
    assert FirstEol(s) == |line|;
    assert s[..|line|] == line;
    assert s[|line| + 2..] == rest;
  }

  /** A partial line (no terminator yet) is taken whole. */
  lemma CutPartial(line: string)
    requires NoEol(line)
    ensures CutLine(line) == (line, "")
  {
    assert FirstEol(line) == |line|;
  }

  /** The lines one drain of the received characters yields, in order. */
  function Drain(rx: string): (lines: seq<string>)
    ensures forall k :: 0 <= k < |lines| ==> NoEol(lines[k])
    decreases |rx|
  {
    if rx == "" then [] else [CutLine(rx).0] + Drain(CutLine(rx).1)
  }

  /** The characters a modem sends for a sequence of reply lines. */
  function Frame(lines: seq<string>): string
    decreases |lines|
  {
    if lines == [] then "" else lines[0] + "\r\n" + Frame(lines[1..])
  }

  lemma FrameCons(lines: seq<string>, rest: string)
    requires lines != []
    ensures Frame(lines) + rest == lines[0] + "\r\n" + (Frame(lines[1..]) + rest)
  {
  }

  lemma {:induction false} FrameAppend(a: seq<string>, b: seq<string>)
    ensures Frame(a + b) == Frame(a) + Frame(b)
    decreases |a|
  {
    if a != [] {
      FrameAppend(a[1..], b);
      assert (a + b)[1..] == a[1..] + b;
    } else {
      assert a + b == b;
    }
  }

  /** Reading framed lines gives the lines back. */
  lemma {:induction false} DrainFrame(lines: seq<string>)
    requires forall k :: 0 <= k < |lines| ==> NoEol(lines[k])
    ensures Drain(Frame(lines)) == lines
    decreases |lines|
  {
    if lines != [] {
      CutFramed(lines[0], Frame(lines[1..]));
      DrainFrame(lines[1..]);
    }
  }

  /**
   * Every line a poll loop with `polls` iterations reads when nothing makes
   * it return early: each iteration drains what has arrived, then sleeps.
   */
  function Stream(p: PortState, polls: nat): seq<string>
    decreases polls
  {
    if polls == 0 then [] else Drain(p.rx) + Stream(Tick(p.(rx := "")), polls - 1)
  }

  /** A poll iteration with characters waiting reads one line first. */
  lemma StreamRead(p: PortState, polls: nat)
    requires polls > 0 && p.rx != ""
    ensures Stream(p, polls) == [CutLine(p.rx).0] + Stream(p.(rx := CutLine(p.rx).1), polls)
  {
    var q := p.(rx := CutLine(p.rx).1);
    assert q.(rx := "") == p.(rx := "");
  }

  /** A poll iteration with nothing waiting only sleeps. */
  lemma StreamIdle(p: PortState, polls: nat)
    requires polls > 0 && p.rx == ""
    ensures Stream(p, polls) == Stream(Tick(p), polls - 1)
  {
    assert p.(rx := "") == p;
  }

  // ---------------------------------------------------------------- boolean match

  /** A line that ends `__waitDataContains`: it holds `content` or is the error token. */
  predicate BoolDecides(line: string, content: string, err: string) {
    Contains(line, content) || line == err
  }

  /** Index of the first line that ends a boolean match, `|lines|` when none does. */
  function FirstBoolDecisive(lines: seq<string>, content: string, err: string): (k: nat)
    ensures k <= |lines|
    ensures k < |lines| ==> BoolDecides(lines[k], content, err)
    ensures forall j :: 0 <= j < k ==> !BoolDecides(lines[j], content, err)
    decreases |lines|
  {
    if lines == [] then 0
    else if BoolDecides(lines[0], content, err) then 0
    else 1 + FirstBoolDecisive(lines[1..], content, err)
  }

  /**
   * `__waitDataContains`: read lines until one holds `content` (true) or
   * equals `err` (false), checking content first; false when the polls run out.
   */
  function WaitContains(p: PortState, polls: nat, content: string, err: string): (r: (bool, PortState))
    ensures r.1.sent == p.sent
    ensures Size(r.1) <= Size(p)
    ensures polls == 0 ==> r == (false, p)
    decreases polls, |p.rx|
  {
    if polls == 0 then (false, p)
    else if p.rx == "" then WaitContains(Tick(p), polls - 1, content, err)
    else
      var (line, rest) := CutLine(p.rx);
      var q := p.(rx := rest);
      if Contains(line, content) then (true, q)
      else if line == err then (false, q)
      else WaitContains(q, polls, content, err)
  }

  /** The boolean verdict of a stream: its first deciding line holds `content`. */
  function BoolVerdict(s: seq<string>, content: string, err: string): bool {
    var k := FirstBoolDecisive(s, content, err);
    k < |s| && Contains(s[k], content)
  }

  /**
   * The first line of the stream that holds `content` or equals `err`
   * decides the boolean match, and it decides true exactly when it holds
   * `content`; when no line decides, the result is false.
   */
  lemma {:induction false} WaitContainsDecidedByFirstLine(p: PortState, polls: nat, content: string, err: string)
    ensures WaitContains(p, polls, content, err).0 == BoolVerdict(Stream(p, polls), content, err)
    decreases polls, |p.rx|, 1
  {
    if polls > 0 {
      if p.rx == "" {
        WaitIdleCase(p, polls - 1, content, err);
      } else {
        var q := p.(rx := CutLine(p.rx).1);
        if !BoolDecides(CutLine(p.rx).0, content, err) {
          WaitContainsDecidedByFirstLine(q, polls, content, err);
        }
        WaitReadCase(p, polls, content, err);
      }
    }
  }

  /** The idle step of the induction: an iteration with nothing waiting only sleeps. */
  lemma {:induction false} WaitIdleCase(p: PortState, n: nat, content: string, err: string)
    requires p.rx == ""
    ensures WaitContains(p, n + 1, content, err).0 == BoolVerdict(Stream(p, n + 1), content, err)
    decreases n + 1, 0, 0
  {
    WaitContainsDecidedByFirstLine(Tick(p), n, content, err);
    StreamIdle(p, n + 1);
  }

  /** The reading step of the induction: the line read decides, or the rest of the stream does. */
  lemma WaitReadCase(p: PortState, polls: nat, content: string, err: string)
    requires polls > 0 && p.rx != ""
    requires var r := CutLine(p.rx);
             !BoolDecides(r.0, content, err) ==>
               WaitContains(p.(rx := r.1), polls, content, err).0 == BoolVerdict(Stream(p.(rx := r.1), polls), content, err)
    ensures WaitContains(p, polls, content, err).0 == BoolVerdict(Stream(p, polls), content, err)
  {
    var r := CutLine(p.rx);
    StreamRead(p, polls);
    WaitRead(p, polls, content, err);
    if !BoolDecides(r.0, content, err) {
      BoolVerdictSkip(r.0, Stream(p.(rx := r.1), polls), content, err);
    } else {
      assert FirstBoolDecisive([r.0] + Stream(p.(rx := r.1), polls), content, err) == 0;
    }
  }

  /** One line read by the boolean match: it decides, or the match goes on with the rest. */
  lemma WaitRead(p: PortState, polls: nat, content: string, err: string)
    requires polls > 0 && p.rx != ""
    ensures var r := CutLine(p.rx);
            WaitContains(p, polls, content, err) ==
              if BoolDecides(r.0, content, err) then (Contains(r.0, content), p.(rx := r.1))
              else WaitContains(p.(rx := r.1), polls, content, err)
  {
  }

  /** A line that decides nothing is skipped by the search for the first deciding line. */
  lemma BoolVerdictSkip(line: string, s: seq<string>, content: string, err: string)
    requires !BoolDecides(line, content, err)
    ensures BoolVerdict([line] + s, content, err) == BoolVerdict(s, content, err)
  {
    assert ([line] + s)[1..] == s;
    var k := FirstBoolDecisive(s, content, err);
    assert FirstBoolDecisive([line] + s, content, err) == 1 + k;
    assert k < |s| ==> ([line] + s)[1 + k] == s[k];
  }

  // ---------------------------------------------------------------- single-line match

  /** A line that ends `__getNotEmptyLine`: non-empty and holding `content`, or the (non-empty) error token. */
  predicate LineDecides(line: string, content: string, err: string) {
    (Contains(line, content) && |line| > 0) || (|err| > 0 && line == err)
  }

  /** Index of the first line that ends a single-line match, `|lines|` when none does. */
  function FirstLineDecisive(lines: seq<string>, content: string, err: string): (k: nat)
    ensures k <= |lines|
    ensures k < |lines| ==> LineDecides(lines[k], content, err)
    ensures forall j :: 0 <= j < k ==> !LineDecides(lines[j], content, err)
    decreases |lines|
  {
    if lines == [] then 0
    else if LineDecides(lines[0], content, err) then 0
    else 1 + FirstLineDecisive(lines[1..], content, err)
  }

  /**
   * `__getNotEmptyLine`: the first non-empty line holding `content`, or ""
   * when the (non-empty) error token comes first or the polls run out.
   */
  function NotEmptyLine(p: PortState, polls: nat, content: string, err: string): (r: (string, PortState))
    ensures r.1.sent == p.sent
    ensures Size(r.1) <= Size(p)
    ensures r.0 != "" ==> Contains(r.0, content) && NoEol(r.0) && Size(r.1) < Size(p)
    ensures polls == 0 ==> r == ("", p)
    decreases polls, |p.rx|
  {
    if polls == 0 then ("", p)
    else if p.rx == "" then NotEmptyLine(Tick(p), polls - 1, content, err)
    else
      var (line, rest) := CutLine(p.rx);
      var q := p.(rx := rest);
      if Contains(line, content) && |line| > 0 then (line, q)
      else if |err| > 0 && err == line then ("", q)
      else NotEmptyLine(q, polls, content, err)
  }

  /** The single-line verdict of a stream: its first qualifying line when that holds `content`, else "". */
  function LineVerdict(s: seq<string>, content: string, err: string): string {
    var k := FirstLineDecisive(s, content, err);
    if k < |s| && Contains(s[k], content) && |s[k]| > 0 then s[k] else ""
  }

  /**
   * The first line of the stream that qualifies decides the single-line
   * match: it is returned when it is a non-empty line holding `content`
   * (content is checked first), "" when it is only the error token; ""
   * when no line qualifies.
   */
  lemma {:induction false} NotEmptyLineDecidedByFirstLine(p: PortState, polls: nat, content: string, err: string)
    ensures NotEmptyLine(p, polls, content, err).0 == LineVerdict(Stream(p, polls), content, err)
    decreases polls, |p.rx|, 1
  {
    if polls > 0 {
      if p.rx == "" {
        LineIdleCase(p, polls - 1, content, err);
      } else {
        var q := p.(rx := CutLine(p.rx).1);
        if !LineDecides(CutLine(p.rx).0, content, err) {
          NotEmptyLineDecidedByFirstLine(q, polls, content, err);
        }
        LineReadCase(p, polls, content, err);
      }
    }
  }

  /** The idle step of the induction: an iteration with nothing waiting only sleeps. */
  lemma {:induction false} LineIdleCase(p: PortState, n: nat, content: string, err: string)
    requires p.rx == ""
    ensures NotEmptyLine(p, n + 1, content, err).0 == LineVerdict(Stream(p, n + 1), content, err)
    decreases n + 1, 0, 0
  {
    NotEmptyLineDecidedByFirstLine(Tick(p), n, content, err);
    StreamIdle(p, n + 1);
  }

  /** The reading step of the induction: the line read decides, or the rest of the stream does. */
  lemma LineReadCase(p: PortState, polls: nat, content: string, err: string)
    requires polls > 0 && p.rx != ""
    requires var r := CutLine(p.rx);
             !LineDecides(r.0, content, err) ==>
               NotEmptyLine(p.(rx := r.1), polls, content, err).0 == LineVerdict(Stream(p.(rx := r.1), polls), content, err)
    ensures NotEmptyLine(p, polls, content, err).0 == LineVerdict(Stream(p, polls), content, err)
  {
    var r := CutLine(p.rx);
    StreamRead(p, polls);
    LineRead(p, polls, content, err);
    if !LineDecides(r.0, content, err) {
      LineVerdictSkip(r.0, Stream(p.(rx := r.1), polls), content, err);
    } else {
      assert FirstLineDecisive([r.0] + Stream(p.(rx := r.1), polls), content, err) == 0;
    }
  }

  /** One line read by the single-line match: it decides, or the match goes on with the rest. */
  lemma LineRead(p: PortState, polls: nat, content: string, err: string)
    requires polls > 0 && p.rx != ""
    ensures var r := CutLine(p.rx);
            NotEmptyLine(p, polls, content, err) ==
              if LineDecides(r.0, content, err) then
                (if Contains(r.0, content) && |r.0| > 0 then r.0 else "", p.(rx := r.1))
              else NotEmptyLine(p.(rx := r.1), polls, content, err)
  {
  }

  /** A line that qualifies for nothing is skipped by the search for the first qualifying line. */
  lemma LineVerdictSkip(line: string, s: seq<string>, content: string, err: string)
    requires !LineDecides(line, content, err)
    ensures LineVerdict([line] + s, content, err) == LineVerdict(s, content, err)
  {
    assert ([line] + s)[1..] == s;
    var k := FirstLineDecisive(s, content, err);
    assert FirstLineDecisive([line] + s, content, err) == 1 + k;
    assert k < |s| ==> ([line] + s)[1 + k] == s[k];
  }

  /** With nothing received and nothing left to deliver, the single-line match times out. */
  lemma {:induction false} NotEmptyLineSilent(p: PortState, polls: nat, content: string, err: string)
    requires p.rx == "" && p.script == []
    ensures NotEmptyLine(p, polls, content, err) == ("", p)
    decreases polls
  {
    if polls > 0 {
      NotEmptyLineSilent(Tick(p), polls - 1, content, err);
    }
  }

  /** `n` sleeps during which the modem delivers nothing. */
  function Quiet(n: nat): (s: seq<string>)
    ensures |s| == n && forall k :: 0 <= k < n ==> s[k] == ""
  {
    seq(n, k => "")
  }

  /** A match that finds the buffer empty and the modem quiet for all its polls times out, one chunk per poll. */
  lemma {:induction false} NotEmptyLineQuiet(p: PortState, polls: nat, err: string, later: seq<string>)
    requires p.rx == "" && p.script == Quiet(polls) + later
    ensures NotEmptyLine(p, polls, "", err) == ("", p.(script := later))
    decreases polls
  {
    if polls == 0 {
      assert Quiet(0) + later == later;
    } else {
      assert p.script[1..] == Quiet(polls - 1) + later;
      NotEmptyLineQuiet(Tick(p), polls - 1, err, later);
    }
  }

  /** A complete non-empty line at the head of the buffer is what a content-free match returns. */
  lemma NotEmptyLineFramed(p: PortState, polls: nat, line: string, rest: string, err: string)
    requires polls > 0 && NoEol(line) && line != ""
    requires p.rx == line + "\r\n" + rest
    ensures NotEmptyLine(p, polls, "", err) == (line, p.(rx := rest))
  {
    CutFramed(line, rest);
    assert StartsWith(line, "");
  }

  // ---------------------------------------------------------------- full-result match

  /** Lines a full-result match may return: non-empty, neither the success nor the error token. */
  predicate Payload(lines: seq<string>, result: string, err: string) {
    forall k :: 0 <= k < |lines| ==> lines[k] != "" && lines[k] != result && lines[k] != err
  }

  /**
   * The collecting loop of `__sendCmdAndGetFullResult`, with `acc` the lines
   * collected so far: stop with `acc` at a timeout or at the success token,
   * with [] at the error token, else keep the line and go on.
   */
  function Collect(p: PortState, polls: nat, result: string, err: string, acc: seq<string>): (r: (seq<string>, PortState))
    ensures r.1.sent == p.sent
    ensures Size(r.1) <= Size(p)
    ensures Payload(acc, result, err) ==> Payload(r.0, result, err)
    ensures r.0 == [] || (|acc| <= |r.0| && r.0[..|acc|] == acc)
    decreases Size(p)
  {
    var (line, q) := NotEmptyLine(p, polls, "", err);
    if line == "" then (acc, q)
    else if result == line then (acc, q)
    else if |err| > 0 && line == err then ([], q)
    else
      var r := Collect(q, polls, result, err, acc + [line]);
      CollectExtends(acc, line, r.0, result, err);
      r
  }

  /** What a collected line adds to the lines collected so far is kept by the rest of the loop. */
  lemma CollectExtends(acc: seq<string>, line: string, rest: seq<string>, result: string, err: string)
    requires line != "" && line != result && line != err
    requires Payload(acc + [line], result, err) ==> Payload(rest, result, err)
    requires rest == [] || (|acc| + 1 <= |rest| && rest[..|acc| + 1] == acc + [line])
    ensures Payload(acc, result, err) ==> Payload(rest, result, err)
    ensures rest == [] || (|acc| <= |rest| && rest[..|acc|] == acc)
  {
    if rest != [] {
      assert rest[..|acc|] == (acc + [line])[..|acc|];
    }
  }

  /** A complete line other than the two tokens is collected, and the loop goes on. */
  lemma CollectKeeps(p: PortState, polls: nat, result: string, err: string, acc: seq<string>, line: string, tail: string)
    requires polls > 0 && NoEol(line) && line != "" && line != result && line != err
    requires p.rx == line + "\r\n" + tail
    ensures Collect(p, polls, result, err, acc) == Collect(p.(rx := tail), polls, result, err, acc + [line])
  {
    NotEmptyLineFramed(p, polls, line, tail, err);
  }

  /** The success token ends the loop with the lines collected so far. */
  lemma CollectStops(p: PortState, polls: nat, result: string, err: string, acc: seq<string>, tail: string)
    requires polls > 0 && NoEol(result) && result != ""
    requires p.rx == result + "\r\n" + tail
    ensures Collect(p, polls, result, err, acc) == (acc, p.(rx := tail))
  {
    NotEmptyLineFramed(p, polls, result, tail, err);
  }

  /** The error token ends the loop with no lines. */
  lemma CollectRefuses(p: PortState, polls: nat, result: string, err: string, acc: seq<string>, tail: string)
    requires polls > 0 && NoEol(err) && err != "" && err != result
    requires p.rx == err + "\r\n" + tail
    ensures Collect(p, polls, result, err, acc) == ([], p.(rx := tail))
  {
    NotEmptyLineFramed(p, polls, err, tail, err);
  }

  /** What `__sendLine` writes for a command: the command and the line terminator. */
  function CommandLine(cmd: string): string {
    cmd + "\r\n"
  }

  function Written(cmd: string, after: string): (w: seq<string>)
    ensures after == "" ==> w == [CommandLine(cmd)]
    ensures after != "" ==> w == [CommandLine(cmd), after]
  {
    if after != "" then [CommandLine(cmd), after] else [CommandLine(cmd)]
  }

  /**
   * `__deleteAllRxData` then `__sendLine`: drop what was received, write
   * the command line, and when there is a trailing payload, sleep once
   * (the modem may deliver a chunk, such as its prompt) before writing it.
   */
  function FlushAndSend(p: PortState, cmd: string, after: string): (q: PortState)
    ensures q.sent == p.sent + Written(cmd, after)
    ensures Size(q) <= Size(p)
    ensures after == "" ==> q.rx == "" && q.script == p.script
    ensures after != "" && p.script != [] ==> q.rx == p.script[0] && q.script == p.script[1..]
    ensures after != "" && p.script == [] ==> q.rx == "" && q.script == []
  {
    var written := PortState("", p.script, p.sent + [CommandLine(cmd)]);
    if after == "" then written
    else
      var slept := Tick(written);
      slept.(sent := slept.sent + [after])
  }

  /** `__sendCmdAndCheckResult`. */
  function CheckCmd(p: PortState, cmd: string, after: string, polls: nat, result: string, err: string): (r: (bool, PortState))
    ensures r.1.sent == p.sent + Written(cmd, after)
    ensures Size(r.1) <= Size(p)
  {
    WaitContains(FlushAndSend(p, cmd, after), polls, result, err)
  }

  /** `__sendCmdAndGetNotEmptyLine`. */
  function LineCmd(p: PortState, cmd: string, after: string, polls: nat, content: string, err: string): (r: (string, PortState))
    ensures r.1.sent == p.sent + Written(cmd, after)
    ensures r.0 != "" ==> Contains(r.0, content)
    ensures Size(r.1) <= Size(p)
  {
    NotEmptyLine(FlushAndSend(p, cmd, after), polls, content, err)
  }

  /** `__sendCmdAndGetFullResult`. */
  function FullCmd(p: PortState, cmd: string, after: string, polls: nat, result: string, err: string): (r: (seq<string>, PortState))
    ensures r.1.sent == p.sent + Written(cmd, after)
    ensures Payload(r.0, result, err)
    ensures Size(r.1) <= Size(p)
  {
    Collect(FlushAndSend(p, cmd, after), polls, result, err, [])
  }

  /** Input pending before a command never influences its outcome (it is dropped first). */
  lemma StaleInputIgnored(p: PortState, stale: string, cmd: string, after: string, polls: nat, result: string, err: string)
    ensures CheckCmd(p.(rx := stale), cmd, after, polls, result, err) == CheckCmd(p, cmd, after, polls, result, err)
    ensures FullCmd(p.(rx := stale), cmd, after, polls, result, err) == FullCmd(p, cmd, after, polls, result, err)
  {
  }

  /**
   * Reply lines framed in the buffer and ended by the success token come
   * back exactly, after whatever was collected before.
   */
  lemma {:induction false} CollectFramed(p: PortState, polls: nat, result: string, err: string,
                                         acc: seq<string>, lines: seq<string>, rest: string)
    requires polls > 0 && result != "" && NoEol(result)
    requires Payload(lines, result, err)
    requires forall k :: 0 <= k < |lines| ==> NoEol(lines[k])
    requires p.rx == Frame(lines + [result]) + rest
    ensures Collect(p, polls, result, err, acc) == (acc + lines, p.(rx := rest))
    decreases |lines|, 1
  {
    if lines == [] {
      assert Frame(lines + [result]) + rest == result + "\r\n" + rest by {
        assert lines + [result] == [result];
      }
      CollectStops(p, polls, result, err, acc, rest);
      assert acc + lines == acc;
    } else {
      CollectFramedLine(p, polls, result, err, acc, lines, rest);
    }
  }

  /** The inductive step of `CollectFramed`: the first reply line is kept, then the rest come back. */
  lemma {:induction false} CollectFramedLine(p: PortState, polls: nat, result: string, err: string,
                                             acc: seq<string>, lines: seq<string>, rest: string)
    requires polls > 0 && result != "" && NoEol(result) && lines != []
    requires Payload(lines, result, err)
    requires forall k :: 0 <= k < |lines| ==> NoEol(lines[k])
    requires p.rx == Frame(lines + [result]) + rest
    ensures Collect(p, polls, result, err, acc) == (acc + lines, p.(rx := rest))
    decreases |lines|, 0
  {
    var tail := Frame(lines[1..] + [result]) + rest;
    assert p.rx == lines[0] + "\r\n" + tail by {
      FrameCons(lines + [result], rest);
      assert (lines + [result])[1..] == lines[1..] + [result];
    }
    CollectKeeps(p, polls, result, err, acc, lines[0], tail);
    CollectFramed(p.(rx := tail), polls, result, err, acc + [lines[0]], lines[1..], rest);
    ChainKept(Collect(p, polls, result, err, acc), Collect(p.(rx := tail), polls, result, err, acc + [lines[0]]),
              acc, lines[0], lines[1..], p.(rx := tail).(rx := rest));
    assert [lines[0]] + lines[1..] == lines;
  }

  /** A result equal to that of the loop after one kept line is that line prepended to what follows. */
  lemma ChainKept(first: (seq<string>, PortState), next: (seq<string>, PortState),
                  acc: seq<string>, line: string, more: seq<string>, last: PortState)
    requires first == next && next == (acc + [line] + more, last)
    ensures first == (acc + ([line] + more), last)
  {
    assert acc + [line] + more == acc + ([line] + more);
  }

  /** Reply lines followed by the error token give the empty result. */
  lemma {:induction false} CollectRejected(p: PortState, polls: nat, result: string, err: string,
                                           acc: seq<string>, lines: seq<string>, rest: string)
    requires polls > 0 && err != "" && NoEol(err) && err != result
    requires Payload(lines, result, err)
    requires forall k :: 0 <= k < |lines| ==> NoEol(lines[k])
    requires p.rx == Frame(lines + [err]) + rest
    ensures Collect(p, polls, result, err, acc) == ([], p.(rx := rest))
    decreases |lines|
  {
    var all := lines + [err];
    FrameCons(all, rest);
    if lines == [] {
      assert all[1..] == [];
      CollectRefuses(p, polls, result, err, acc, rest);
    } else {
      assert all[1..] == lines[1..] + [err];
      CollectKeeps(p, polls, result, err, acc, lines[0], Frame(all[1..]) + rest);
      CollectRejected(p.(rx := Frame(all[1..]) + rest), polls, result, err, acc + [lines[0]], lines[1..], rest);
    }
  }

  /** Reply lines with no terminator and nothing more to come are returned as they are (timeout). */
  lemma {:induction false} CollectTimedOut(p: PortState, polls: nat, result: string, err: string,
                                           acc: seq<string>, lines: seq<string>)
    requires polls > 0 && p.script == []
    requires Payload(lines, result, err)
    requires forall k :: 0 <= k < |lines| ==> NoEol(lines[k])
    requires p.rx == Frame(lines)
    ensures Collect(p, polls, result, err, acc) == (acc + lines, p.(rx := ""))
    decreases |lines|
  {
    if lines == [] {
      CollectSilent(p, polls, result, err, acc);
      assert acc + lines == acc && p.(rx := "") == p;
    } else {
      var q := p.(rx := Frame(lines[1..]));
      assert p.rx == lines[0] + "\r\n" + Frame(lines[1..]);
      CollectKeeps(p, polls, result, err, acc, lines[0], Frame(lines[1..]));
      CollectTimedOut(q, polls, result, err, acc + [lines[0]], lines[1..]);
      ChainKept(Collect(p, polls, result, err, acc), Collect(q, polls, result, err, acc + [lines[0]]),
                acc, lines[0], lines[1..], q.(rx := ""));
      assert [lines[0]] + lines[1..] == lines;
    }
  }

  /** A silent modem ends collection with what was gathered. */
  lemma CollectSilent(p: PortState, polls: nat, result: string, err: string, acc: seq<string>)
    requires p.rx == "" && p.script == []
    ensures Collect(p, polls, result, err, acc) == (acc, p)
  {
    NotEmptyLineSilent(p, polls, "", err);
  }

  /**
   * A whole exchange: whatever was pending is dropped, the command is
   * written, and a reply the modem delivers at the first sleep (the one
   * before the payload, when there is one), framed and ended by the
   * success token, is returned line for line.
   */
  lemma FullCmdReply(p: PortState, cmd: string, after: string, polls: nat, result: string, err: string,
                     lines: seq<string>, rest: string, later: seq<string>)
    requires polls > 1 && result != "" && NoEol(result)
    requires Payload(lines, result, err)
    requires forall k :: 0 <= k < |lines| ==> NoEol(lines[k])
    requires p.script == [Frame(lines + [result]) + rest] + later
    ensures FullCmd(p, cmd, after, polls, result, err) ==
            (lines, PortState(rest, later, p.sent + Written(cmd, after)))
  {
    var q := FlushAndSend(p, cmd, after);
    var t := if after == "" then Tick(q) else q;
    var all := lines + [result];
    assert t.rx == Frame(all) + rest;
    CollectFramed(t, polls, result, err, [], lines, rest);
    assert [] + lines == lines;
    if after == "" {
      FrameCons(all, rest);
      CollectSlept(q, polls, result, err, [], all[0], Frame(all[1..]) + rest);
    }
  }

  /** A reply that arrives during the first sleep is collected as if it had been waiting. */
  lemma CollectSlept(q: PortState, polls: nat, result: string, err: string, acc: seq<string>, line: string, more: string)
    requires polls > 1 && q.rx == "" && NoEol(line) && line != ""
    requires Tick(q).rx == line + "\r\n" + more
    ensures Collect(q, polls, result, err, acc) == Collect(Tick(q), polls, result, err, acc)
  {
    NotEmptyLineFramed(Tick(q), polls - 1, line, more, err);
    NotEmptyLineFramed(Tick(q), polls, line, more, err);
    assert NotEmptyLine(q, polls, "", err) == NotEmptyLine(Tick(q), polls - 1, "", err);
  }


  /** `__sendCmdAndGetFullResult` against a modem with nothing more to say returns no lines. */
  lemma FullCmdSilent(p: PortState, cmd: string, polls: nat, result: string, err: string)
    requires p.script == []
    ensures FullCmd(p, cmd, "", polls, result, err) == ([], PortState("", [], p.sent + [CommandLine(cmd)]))
  {
    var q := FlushAndSend(p, cmd, "");
    NotEmptyLineSilent(q, polls, "", err);
  }

  // ---------------------------------------------------------------- answered exchanges

  /** A text without a carriage return holds no line terminator. */
  lemma NoCrNoEol(s: string)
    requires '\r' !in s
    ensures NoEol(s)
  {
    forall i | 0 <= i < |s|
      ensures !EolAt(s, i)
    {
      assert s[i] in s;
    }
  }

  /**
   * A boolean match over framed lines: lines that decide nothing are
   * skipped, and the first deciding line gives true exactly when it holds
   * `content`; what follows it stays in the buffer.
   */
  lemma {:induction false} WaitFramed(p: PortState, polls: nat, content: string, err: string,
                                      lines: seq<string>, last: string, rest: string)
    requires polls > 0
    requires forall k :: 0 <= k < |lines| ==> NoEol(lines[k]) && !BoolDecides(lines[k], content, err)
    requires NoEol(last) && BoolDecides(last, content, err)
    requires p.rx == Frame(lines + [last]) + rest
    ensures WaitContains(p, polls, content, err) == (Contains(last, content), p.(rx := rest))
    decreases |lines|
  {
    var all := lines + [last];
    FrameCons(all, rest);
    var tail := Frame(all[1..]) + rest;
    CutFramed(all[0], tail);
    if lines == [] {
      assert all[1..] == [];
      assert tail == rest;
    } else {
      assert all[1..] == lines[1..] + [last];
      WaitFramed(p.(rx := tail), polls, content, err, lines[1..], last, rest);
    }
  }

  /**
   * A single-line match over framed lines: lines that qualify for nothing
   * are skipped; the first qualifying line is returned when it is a
   * non-empty line holding `content`, and "" when it is the error token.
   */
  lemma {:induction false} LineFramed(p: PortState, polls: nat, content: string, err: string,
                                      lines: seq<string>, last: string, rest: string)
    requires polls > 0
    requires forall k :: 0 <= k < |lines| ==> NoEol(lines[k]) && !LineDecides(lines[k], content, err)
    requires NoEol(last) && LineDecides(last, content, err)
    requires p.rx == Frame(lines + [last]) + rest
    ensures NotEmptyLine(p, polls, content, err) ==
            (if Contains(last, content) && |last| > 0 then last else "", p.(rx := rest))
    decreases |lines|
  {
    var all := lines + [last];
    FrameCons(all, rest);
    var tail := Frame(all[1..]) + rest;
    CutFramed(all[0], tail);
    if lines == [] {
      assert all[1..] == [];
      assert tail == rest;
    } else {
      assert all[1..] == lines[1..] + [last];
      LineFramed(p.(rx := tail), polls, content, err, lines[1..], last, rest);
    }
  }

  /**
   * `__sendCmdAndCheckResult` against a modem that answers at the first
   * sleep: the reply's first deciding line decides, and the reply is used up.
   */
  lemma CheckCmdAnswered(p: PortState, cmd: string, polls: nat, content: string, err: string,
                         lines: seq<string>, last: string, later: seq<string>)
    requires polls > 1
    requires forall k :: 0 <= k < |lines| ==> NoEol(lines[k]) && !BoolDecides(lines[k], content, err)
    requires NoEol(last) && BoolDecides(last, content, err)
    requires p.script == [Frame(lines + [last])] + later
    ensures CheckCmd(p, cmd, "", polls, content, err) ==
            (Contains(last, content), PortState("", later, p.sent + [CommandLine(cmd)]))
  {
    var q := FlushAndSend(p, cmd, "");
    var t := Tick(q);
    assert t.rx == Frame(lines + [last]) + "";
    WaitFramed(t, polls - 1, content, err, lines, last, "");
  }

  /**
   * `__sendCmdAndCheckResult` against a modem whose first-sleep reply goes
   * on after the deciding line: the lines after it stay in the buffer.
   */
  lemma CheckCmdAnsweredThen(p: PortState, cmd: string, polls: nat, content: string, err: string,
                             lines: seq<string>, last: string, tail: seq<string>, later: seq<string>)
    requires polls > 1
    requires forall k :: 0 <= k < |lines| ==> NoEol(lines[k]) && !BoolDecides(lines[k], content, err)
    requires NoEol(last) && BoolDecides(last, content, err)
    requires p.script == [Frame(lines + [last] + tail)] + later
    ensures CheckCmd(p, cmd, "", polls, content, err) ==
            (Contains(last, content), PortState(Frame(tail), later, p.sent + [CommandLine(cmd)]))
  {
    var q := FlushAndSend(p, cmd, "");
    var t := Tick(q);
    FrameAppend(lines + [last], tail);
    assert t.rx == Frame(lines + [last]) + Frame(tail);
    WaitFramed(t, polls - 1, content, err, lines, last, Frame(tail));
    assert WaitContains(q, polls, content, err) == WaitContains(t, polls - 1, content, err);
  }

  /** A partial line that decides nothing is read and dropped; the match goes on at the next sleep. */
  lemma WaitSkipsPartial(q: PortState, polls: nat, content: string, err: string)
    requires polls > 0 && NoEol(q.rx) && !BoolDecides(q.rx, content, err)
    ensures WaitContains(q, polls, content, err) == WaitContains(Tick(q.(rx := "")), polls - 1, content, err)
  {
    if q.rx != "" {
      CutPartial(q.rx);
    }
  }

  /**
   * `__sendCmdAndCheckResult` with a payload, against a modem that shows a
   * prompt (a partial line) during the sleep before the payload and answers
   * at the next sleep: the prompt is skipped and the answer decides.
   */
  lemma CheckCmdPrompted(p: PortState, cmd: string, after: string, polls: nat, content: string, err: string,
                         prompt: string, lines: seq<string>, last: string, later: seq<string>)
    requires after != "" && polls > 1
    requires NoEol(prompt) && !BoolDecides(prompt, content, err)
    requires forall k :: 0 <= k < |lines| ==> NoEol(lines[k]) && !BoolDecides(lines[k], content, err)
    requires NoEol(last) && BoolDecides(last, content, err)
    requires p.script == [prompt, Frame(lines + [last])] + later
    ensures CheckCmd(p, cmd, after, polls, content, err) ==
            (Contains(last, content), PortState("", later, p.sent + [CommandLine(cmd), after]))
  {
    var q := FlushAndSend(p, cmd, after);
    assert q.rx == prompt && q.script == [Frame(lines + [last])] + later by {
      assert p.script[0] == prompt && p.script[1..] == [Frame(lines + [last])] + later;
    }
    var s := Tick(q.(rx := ""));
    assert s == PortState(Frame(lines + [last]) + "", later, p.sent + [CommandLine(cmd), after]);
    WaitSkipsPartial(q, polls, content, err);
    WaitFramed(s, polls - 1, content, err, lines, last, "");
    assert CheckCmd(p, cmd, after, polls, content, err) == WaitContains(q, polls, content, err);
  }

  /**
   * `__sendCmdAndGetNotEmptyLine` against a modem that answers at the first
   * sleep: the first qualifying line decides; the lines after it stay
   * in the buffer.
   */
  lemma LineCmdAnswered(p: PortState, cmd: string, polls: nat, content: string, err: string,
                        lines: seq<string>, last: string, tail: seq<string>, later: seq<string>)
    requires polls > 1
    requires forall k :: 0 <= k < |lines| ==> NoEol(lines[k]) && !LineDecides(lines[k], content, err)
    requires NoEol(last) && LineDecides(last, content, err)
    requires p.script == [Frame(lines + [last] + tail)] + later
    ensures LineCmd(p, cmd, "", polls, content, err) ==
            (if Contains(last, content) && |last| > 0 then last else "",
             PortState(Frame(tail), later, p.sent + [CommandLine(cmd)]))
  {
    var t := PortState(Frame(lines + [last] + tail), later, p.sent + [CommandLine(cmd)]);
    LineCmdSlept(p, cmd, polls, content, err);
    assert p.script[0] == t.rx && p.script[1..] == later;
    FrameAppend(lines + [last], tail);
    LineFramed(t, polls - 1, content, err, lines, last, Frame(tail));
  }

  /** The single-line match of a command without payload starts reading at the first sleep. */
  lemma LineCmdSlept(p: PortState, cmd: string, polls: nat, content: string, err: string)
    requires polls > 0 && p.script != []
    ensures LineCmd(p, cmd, "", polls, content, err) ==
            NotEmptyLine(PortState(p.script[0], p.script[1..], p.sent + [CommandLine(cmd)]), polls - 1, content, err)
  {
    var q := FlushAndSend(p, cmd, "");
    assert Tick(q) == PortState("" + p.script[0], p.script[1..], p.sent + [CommandLine(cmd)]);
    assert "" + p.script[0] == p.script[0];
  }

  /** With nothing more to come, a boolean match over lines that decide nothing times out false. */
  lemma {:induction false} WaitUndecided(p: PortState, polls: nat, content: string, err: string, lines: seq<string>)
    requires p.script == []
    requires forall k :: 0 <= k < |lines| ==> NoEol(lines[k]) && !BoolDecides(lines[k], content, err)
    requires p.rx == Frame(lines)
    ensures WaitContains(p, polls, content, err) == (false, if polls == 0 then p else p.(rx := ""))
    decreases polls, |lines|
  {
    if polls > 0 {
      if lines == [] {
        assert Tick(p) == p;
        WaitUndecided(p, polls - 1, content, err, lines);
      } else {
        FrameCons(lines, "");
        assert Frame(lines) + "" == Frame(lines);
        CutFramed(lines[0], Frame(lines[1..]));
        WaitUndecided(p.(rx := Frame(lines[1..])), polls, content, err, lines[1..]);
      }
    }
  }

  /**
   * `__sendCmdAndCheckResult` against a modem whose whole reply decides
   * nothing: the match times out false.
   */
  lemma CheckCmdUnanswered(p: PortState, cmd: string, polls: nat, content: string, err: string, lines: seq<string>)
    requires polls > 1
    requires forall k :: 0 <= k < |lines| ==> NoEol(lines[k]) && !BoolDecides(lines[k], content, err)
    requires p.script == [Frame(lines)]
    ensures CheckCmd(p, cmd, "", polls, content, err) == (false, PortState("", [], p.sent + [CommandLine(cmd)]))
  {
    var q := FlushAndSend(p, cmd, "");
    var t := Tick(q);
    assert t.rx == Frame(lines) && t.script == [];
    WaitUndecided(t, polls - 1, content, err, lines);
    assert WaitContains(q, polls, content, err) == WaitContains(t, polls - 1, content, err);
  }
}
