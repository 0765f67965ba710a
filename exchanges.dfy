/**
 * Answered exchanges: a modem that replies to a command the way the
 * TC35 documents makes each operation return the decoded value and leave
 * the port with nothing left to read. The base timeout is at least one
 * second, so every wait covers at least ten sleeps.
 */
module Exchanges {
  import opened Text
  import opened Fields
  import opened Wire
  import opened SmsListing
  import opened Session

  /** The result tokens hold no terminator and do not hold each other. */
  lemma TokenFacts()
    ensures NoEol(Ok) && NoEol(Error) && NoEol("")
    ensures !Contains(Error, Ok) && !Contains("", Ok) && !Contains(Ok, Error)
  {
    NotContainsWithout(Error, Ok, 'K');
    NotContainsWithout(Ok, Error, 'E');
    NoCrNoEol(Ok);
    NoCrNoEol(Error);
  }

  /** A reply line made of a header and comma-separated fields without carriage returns. */
  lemma FieldsLinePlain(head: string, fields: seq<string>)
    requires '\r' !in head
    requires forall k :: 0 <= k < |fields| ==> '\r' !in fields[k]
    ensures NoEol(head + Join(fields, ','))
    ensures StartsWith(head + Join(fields, ','), head)
  {
    JoinExcludes(fields, ',', '\r');
    NoCrNoEol(head + Join(fields, ','));
  }

  /** A printed integer holds no carriage return. */
  lemma IntNoCr(n: int)
    ensures '\r' !in IntToString(n)
  {
    IntToStringChars(n);
  }

  // ---------------------------------------------------------------- setup

  /**
   * Of the three commands `setup` sends, only the answer to the text-mode
   * command decides the result: echo and caller identification may fail.
   */
  lemma SetupDecidedByTextMode(p: PortState, t: nat, echo: string, clip: string, textMode: string, later: seq<string>)
    requires t >= 1
    requires (echo == Ok || echo == Error) && (clip == Ok || clip == Error) && (textMode == Ok || textMode == Error)
    requires p.script == [Frame([echo]), Frame([clip]), Frame([textMode])] + later
    ensures Setup(p, t, true) ==
            (textMode == Ok, PortState("", later, p.sent + [CommandLine("ATE0"), CommandLine("AT+CLIP=1"), CommandLine("AT+CMGF=1")]))
  {
    var rest := [Frame([textMode])] + later;
    var script := [Frame([clip])] + rest;
    assert p.script == [Frame([echo])] + script;
    TokenAnswered(p, t, "ATE0", echo, script);
    var q1 := PortState("", script, p.sent + [CommandLine("ATE0")]);
    TokenAnswered(q1, t, "AT+CLIP=1", clip, rest);
    var q2 := PortState("", rest, q1.sent + [CommandLine("AT+CLIP=1")]);
    TokenAnswered(q2, t, "AT+CMGF=1", textMode, later);
  }

  /** A command answered by a bare `OK` or `ERROR` succeeds exactly on `OK`. */
  lemma TokenAnswered(p: PortState, t: nat, cmd: string, token: string, later: seq<string>)
    requires t >= 1 && (token == Ok || token == Error)
    requires p.script == [Frame([token])] + later
    ensures Check(p, t, cmd) == (token == Ok, PortState("", later, p.sent + [CommandLine(cmd)]))
  {
    TokenFacts();
    assert [] + [token] == [token];
    CheckCmdAnswered(p, cmd, Polls(t, 0), Ok, Error, [], token, later);
  }

  // ---------------------------------------------------------------- information

  /** An identification query answered `<id>` then `OK` returns the identifier and drops the `OK`. */
  lemma InfoAnswered(p: PortState, t: nat, cmd: string, id: string, later: seq<string>)
    requires t >= 1 && id != "" && '\r' !in id
    requires p.script == [Frame(["", id, "", Ok])] + later
    ensures Info(p, t, cmd) == (id, PortState("", later, p.sent + [CommandLine(cmd)]))
  {
    TokenFacts();
    NoCrNoEol(id);
    var polls := Polls(t, 0);
    FourLines("", id, "", Ok);
    LineCmdAnswered(p, cmd, polls, "", Error, [""], id, ["", Ok], later);
    OkDrained(PortState(Frame(["", Ok]), later, p.sent + [CommandLine(cmd)]), t);
  }

  /** `getSignalStrength` reads the dBm value of a `+CSQ` answer. */
  lemma SignalStrengthAnswered(p: PortState, t: nat, rssi: int, ber: int, later: seq<string>)
    requires t >= 1
    requires p.script == [Frame(["", CsqLine(rssi, ber), "", Ok])] + later
    ensures SignalStrength(p, t).0 == if 0 <= rssi < 99 then 2 * rssi - 113 else -1
  {
    TokenFacts();
    var line := CsqLine(rssi, ber);
    IntNoCr(rssi);
    IntNoCr(ber);
    FieldsLinePlain("+CSQ: ", [IntToString(rssi), IntToString(ber)]);
    ContainsPrefix(line, "+CSQ: ");
    FourLines("", line, "", Ok);
    LineCmdAnswered(p, "AT+CSQ", Polls(t, 0), "+CSQ: ", Error, [""], line, ["", Ok], later);
    SignalOfCsqLine(rssi, ber);
  }

  /**
   * An identification query answered with a bare `ERROR` returns the text
   * `ERROR` as the identifier: with empty content, the error token is also
   * a non-empty line holding the content, and it is checked first.
   */
  lemma InfoOnErrorReply(p: PortState, t: nat, cmd: string, later: seq<string>)
    requires t >= 1
    requires p.script == [Frame([Error])] + later
    ensures Info(p, t, cmd).0 == Error
  {
    TokenFacts();
    assert [] + [Error] + [] == [Error];
    LineCmdAnswered(p, cmd, Polls(t, 0), "", Error, [], Error, [], later);
  }

  /** `getOperatorName` reads the name of a `+COPS` answer once the format was selected. */
  lemma OperatorNameAnswered(p: PortState, t: nat, mode: int, format: int, name: string, later: seq<string>)
    requires t >= 1 && ',' !in name && '\r' !in name
    requires p.script == [Frame([Ok]), Frame(["", CopsLine(mode, format, name), "", Ok])] + later
    ensures OperatorName(p, t).0 == name
  {
    TokenFacts();
    var polls := Polls(t, 0);
    var line := CopsLine(mode, format, name);
    CopsLineReadable(mode, format, name);
    TokenAnswered(p, t, "AT+COPS=3,0", Ok, [Frame(["", line, "", Ok])] + later);
    var q := PortState("", [Frame(["", line, "", Ok])] + later, p.sent + [CommandLine("AT+COPS=3,0")]);
    FourLines("", line, "", Ok);
    LineCmdAnswered(q, "AT+COPS?", polls, "+COPS: ", Error, [""], line, ["", Ok], later);
    OperatorOfCopsLine(mode, format, name);
  }

  /** A `+COPS` line is one line that starts with its header. */
  lemma CopsLineReadable(mode: int, format: int, name: string)
    requires '\r' !in name
    ensures NoEol(CopsLine(mode, format, name)) && Contains(CopsLine(mode, format, name), "+COPS: ")
  {
    var fields := [IntToString(mode), IntToString(format), "\"" + name + "\""];
    IntNoCr(mode);
    IntNoCr(format);
    assert '\r' !in fields[2];
    FieldsLinePlain("+COPS: ", fields);
    ContainsPrefix(CopsLine(mode, format, name), "+COPS: ");
  }

  /** A failed format selection means no `AT+COPS?` and an empty name. */
  lemma OperatorNameRefused(p: PortState, t: nat, later: seq<string>)
    requires t >= 1
    requires p.script == [Frame([Error])] + later
    ensures OperatorName(p, t) == ("", PortState("", later, p.sent + [CommandLine("AT+COPS=3,0")]))
  {
    TokenFacts();
    assert [] + [Error] == [Error];
    CheckCmdAnswered(p, "AT+COPS=3,0", Polls(t, 0), Ok, Error, [], Error, later);
  }

  // ---------------------------------------------------------------- operator list

  /** The `+COPN` lines of a module that knows the operators `names` under the codes `numerics`. */
  function CopnLines(numerics: seq<string>, names: seq<string>): (lines: seq<string>)
    requires |numerics| == |names|
    ensures |lines| == |names|
    decreases |names|
  {
    if names == [] then []
    else
      var n := |names| - 1;
      CopnLines(numerics[..n], names[..n]) + [CopnLine(numerics[n], names[n])]
  }

  /** Codes and names that print and read back without ambiguity. */
  predicate PlainOperators(numerics: seq<string>, names: seq<string>) {
    |numerics| == |names| &&
    (forall k :: 0 <= k < |names| ==> names[k] != "" && ',' !in names[k] && '\r' !in names[k]) &&
    (forall k :: 0 <= k < |numerics| ==> ',' !in numerics[k] && '\r' !in numerics[k])
  }

  /** Every `+COPN` line is a single line longer than its header. */
  lemma CopnLinePlain(numeric: string, name: string)
    requires '\r' !in numeric && '\r' !in name
    ensures NoEol(CopnLine(numeric, name)) && |CopnLine(numeric, name)| > 7
  {
    FieldsLinePlain("+COPN: ", ["\"" + numeric + "\"", "\"" + name + "\""]);
  }

  /** The k-th `+COPN` line describes the k-th operator. */
  lemma {:induction false} CopnLinesAt(numerics: seq<string>, names: seq<string>)
    requires |numerics| == |names|
    ensures forall k :: 0 <= k < |names| ==> CopnLines(numerics, names)[k] == CopnLine(numerics[k], names[k])
    decreases |names|
  {
    if names != [] {
      var n := |names| - 1;
      CopnLinesAt(numerics[..n], names[..n]);
    }
  }

  /** The operator names read back from the `+COPN` lines are the names, in order. */
  lemma {:induction false} OperatorNamesOfCopnLines(numerics: seq<string>, names: seq<string>)
    requires PlainOperators(numerics, names)
    ensures OperatorNamesFrom(CopnLines(numerics, names)) == names
    decreases |names|
  {
    if names != [] {
      var n := |names| - 1;
      var lines := CopnLines(numerics, names);
      assert lines[..n] == CopnLines(numerics[..n], names[..n]);
      assert lines[n] == CopnLine(numerics[n], names[n]);
      assert PlainOperators(numerics[..n], names[..n]);
      OperatorNamesOfCopnLines(numerics[..n], names[..n]);
      OperatorOfCopnLine(numerics[n], names[n]);
      assert names[..n] + [names[n]] == names;
    }
  }

  /** The `+COPN` lines are a payload of single lines for a full-result match. */
  lemma CopnReplyLines(numerics: seq<string>, names: seq<string>)
    requires PlainOperators(numerics, names)
    ensures Payload(CopnLines(numerics, names), Ok, Error)
    ensures forall k :: 0 <= k < |names| ==> NoEol(CopnLines(numerics, names)[k])
  {
    var lines := CopnLines(numerics, names);
    CopnLinesAt(numerics, names);
    forall k | 0 <= k < |lines|
      ensures NoEol(lines[k]) && |lines[k]| > 7
    {
      CopnLinePlain(numerics[k], names[k]);
    }
  }

  /** `getOperatorNames` returns every operator of a complete `AT+COPN` answer. */
  lemma OperatorNamesAnswered(p: PortState, t: nat, numerics: seq<string>, names: seq<string>, later: seq<string>)
    requires t >= 1 && PlainOperators(numerics, names)
    requires p.script == [Frame(CopnLines(numerics, names) + [Ok])] + later
    ensures OperatorNames(p, t) == (names, PortState("", later, p.sent + [CommandLine("AT+COPN")]))
  {
    TokenFacts();
    var lines := CopnLines(numerics, names);
    OperatorNamesOfCopnLines(numerics, names);
    CopnReplyLines(numerics, names);
    assert Frame(lines + [Ok]) + "" == Frame(lines + [Ok]);
    FullCmdReply(p, "AT+COPN", "", Polls(t, 0), Ok, Error, lines, "", later);
  }

  // ---------------------------------------------------------------- clock

  /** `getDateFromInternalClock` reads the date of a `+CCLK` answer. */
  lemma GetDateAnswered(p: PortState, t: nat, date: string, later: seq<string>)
    requires t >= 1 && date != "" && '\r' !in date
    requires p.script == [Frame(["", CclkLine(date), "", Ok])] + later
    ensures GetDate(p, t) == (date, PortState("", later, p.sent + [CommandLine("AT+CCLK?")]))
  {
    TokenFacts();
    var polls := Polls(t, 0);
    var line := CclkLine(date);
    NoCrNoEol(line);
    ContainsPrefix(line, "+CCLK: ");
    FourLines("", line, "", Ok);
    LineCmdAnswered(p, "AT+CCLK?", polls, "+CCLK: ", Error, [""], line, ["", Ok], later);
    DateOfCclkLine(date);
    OkDrained(PortState(Frame(["", Ok]), later, p.sent + [CommandLine("AT+CCLK?")]), t);
  }

  /** Setting the clock and reading it back gives the time that was set. */
  lemma ClockRoundTrip(p: PortState, t: nat, now: string, later: seq<string>)
    requires t >= 1 && now != "" && '\r' !in now
    requires p.script == [Frame([Ok]), Frame(["", CclkLine(now), "", Ok])] + later
    ensures SetDate(p, t, now).0
    ensures GetDate(SetDate(p, t, now).1, t).0 == now
  {
    TokenFacts();
    var rest := [Frame(["", CclkLine(now), "", Ok])] + later;
    assert [] + [Ok] == [Ok];
    CheckCmdAnswered(p, "AT+CCLK=\"" + now + "\"", Polls(t, 0), Ok, Error, [], Ok, rest);
    GetDateAnswered(PortState("", rest, p.sent + [CommandLine("AT+CCLK=\"" + now + "\"")]), t, now, later);
  }

  // ---------------------------------------------------------------- switching off

  /** `switchOff` succeeds on the `^SMSO: MS OFF` answer and drops the final `OK`. */
  lemma SwitchOffAnswered(p: PortState, t: nat, later: seq<string>)
    requires t >= 1
    requires p.script == [Frame(["", "^SMSO: MS OFF", "", Ok])] + later
    ensures SwitchOff(p, t) == (true, PortState("", later, p.sent + [CommandLine("AT^SMSO")]))
  {
    TokenFacts();
    var polls := Polls(t, 0);
    var line := "^SMSO: MS OFF";
    NoCrNoEol(line);
    assert line == "^SMSO: " + "MS OFF";
    ContainsSuffix("^SMSO: ", "MS OFF");
    FourLines("", line, "", Ok);
    CheckCmdAnsweredThen(p, "AT^SMSO", polls, "MS OFF", Error, [""], line, ["", Ok], later);
    OkDrained(PortState(Frame(["", Ok]), later, p.sent + [CommandLine("AT^SMSO")]), t);
  }

  // ---------------------------------------------------------------- calls

  /** `getLastCallDuration` reads the text after `^SLCD: ` and drops the final `OK`. */
  lemma LastCallDurationAnswered(p: PortState, t: nat, duration: string, later: seq<string>)
    requires t >= 1 && duration != "" && '\r' !in duration
    requires p.script == [Frame(["", "^SLCD: " + duration, "", Ok])] + later
    ensures LastCallDuration(p, t) == (duration, PortState("", later, p.sent + [CommandLine("AT^SLCD")]))
  {
    TokenFacts();
    var polls := Polls(t, 0);
    var line := "^SLCD: " + duration;
    NoCrNoEol(line);
    assert StartsWith(line, "^SLCD: ");
    ContainsPrefix(line, "^SLCD: ");
    FourLines("", line, "", Ok);
    LineCmdAnswered(p, "AT^SLCD", polls, "^SLCD: ", Error, [""], line, ["", Ok], later);
    var read := DurationFromSlcd(line);
    assert read != "";
    assert read == line[7..] == duration;
    OkDrained(PortState(Frame(["", Ok]), later, p.sent + [CommandLine("AT^SLCD")]), t);
  }

  /**
   * `getCurrentCallState` reads state and number of the first `+CLCC` line;
   * the rest of the answer is left for the next command to flush.
   */
  lemma CallStateAnswered(p: PortState, t: nat, id: int, dir: int, stat: int, mode: int, mpty: int,
                          number: string, numType: int, later: seq<string>)
    requires t >= 1 && ',' !in number && '\r' !in number
    requires p.script == [Frame(["", ClccLine(id, dir, stat, mode, mpty, number, numType), "", Ok])] + later
    ensures CurrentCallState(p, t) == (stat, number, PortState(Frame(["", Ok]), later, p.sent + [CommandLine("AT+CLCC")]))
  {
    TokenFacts();
    var line := ClccLine(id, dir, stat, mode, mpty, number, numType);
    ClccLineReadable(id, dir, stat, mode, mpty, number, numType);
    FourLines("", line, "", Ok);
    LineCmdAnswered(p, "AT+CLCC", Polls(t, 0), "+CLCC:", Ok, [""], line, ["", Ok], later);
    CallStateOfClccLine(id, dir, stat, mode, mpty, number, numType);
  }

  /** A `+CLCC` line is one line that holds its header. */
  lemma ClccLineReadable(id: int, dir: int, stat: int, mode: int, mpty: int, number: string, numType: int)
    requires '\r' !in number
    ensures NoEol(ClccLine(id, dir, stat, mode, mpty, number, numType))
    ensures Contains(ClccLine(id, dir, stat, mode, mpty, number, numType), "+CLCC:")
  {
    var line := ClccLine(id, dir, stat, mode, mpty, number, numType);
    var fields := [IntToString(id), IntToString(dir), IntToString(stat), IntToString(mode),
                   IntToString(mpty), "\"" + number + "\"", IntToString(numType)];
    IntNoCr(id);
    IntNoCr(dir);
    IntNoCr(stat);
    IntNoCr(mode);
    IntNoCr(mpty);
    IntNoCr(numType);
    assert '\r' !in fields[5];
    FieldsLinePlain("+CLCC: ", fields);
    assert line == "+CLCC:" + (" " + Join(fields, ','));
    ContainsPrefix(line, "+CLCC:");
  }

  /** The final `OK` after an empty line is drained, and the port is left empty. */
  lemma OkDrained(q: PortState, t: nat)
    requires t >= 1 && q.rx == Frame(["", Ok])
    ensures DrainOk(q, t) == q.(rx := "")
  {
    TokenFacts();
    assert [""] + [Ok] == ["", Ok];
    assert q.rx == Frame([""] + [Ok]) + "";
    WaitFramed(q, Polls(t, 0), Ok, Error, [""], Ok, "");
  }

  /** Four reply lines, the first one and the last two written apart. */
  lemma FourLines(a: string, b: string, c: string, d: string)
    ensures [a] + [b] + [c, d] == [a, b, c, d]
  {
  }

  /** With no call listed the answer is a bare `OK`, the error token here: no call, no number. */
  lemma NoCallAnswered(p: PortState, t: nat, later: seq<string>)
    requires t >= 1
    requires p.script == [Frame(["", Ok])] + later
    ensures CurrentCallState(p, t) == (NoCall, "", PortState("", later, p.sent + [CommandLine("AT+CLCC")]))
  {
    TokenFacts();
    assert [""] + [Ok] + [] == ["", Ok];
    LineCmdAnswered(p, "AT+CLCC", Polls(t, 0), "+CLCC:", Ok, [""], Ok, [], later);
  }

  /**
   * The two `+CPAS` polls on a one-digit answer: 3 (ringing) for
   * `isSomeoneCalling`, 4 (call in progress) for `isCallInProgress`; the
   * final `OK` is left for the next command to flush.
   */
  lemma CpasAnswered(p: PortState, t: nat, wait: nat, d: char, later: seq<string>)
    requires t >= 1 && IsDigit(d)
    requires p.script == [Frame(["", "+CPAS: " + [d], "", Ok])] + later
    ensures SomeoneCalling(p, t, wait) == (d == '3', PortState(Frame(["", Ok]), later, p.sent + [CommandLine("AT+CPAS")]))
    ensures CallInProgress(p, t) == (d == '4', PortState(Frame(["", Ok]), later, p.sent + [CommandLine("AT+CPAS")]))
  {
    TokenFacts();
    var line := "+CPAS: " + [d];
    NoCrNoEol(line);
    assert line[..6] == "+CPAS:";
    ContainsPrefix(line, "+CPAS:");
    FourLines("", line, "", Ok);
    LineCmdAnswered(p, "AT+CPAS", Polls(t, wait), "+CPAS:", Error, [""], line, ["", Ok], later);
    LineCmdAnswered(p, "AT+CPAS", Polls(t, 0), "+CPAS:", Error, [""], line, ["", Ok], later);
    CpasPollsExclusive(d);
  }

  /** `hangUpCall` falls back to `ATH` when `AT+CHUP` is refused, and reports its result. */
  lemma HangUpFallsBack(p: PortState, t: nat, answer: string, later: seq<string>)
    requires t >= 1 && (answer == Ok || answer == Error)
    requires p.script == [Frame([Error]), Frame([answer])] + later
    ensures HangUp(p, t) == (answer == Ok, PortState("", later, p.sent + [CommandLine("AT+CHUP"), CommandLine("ATH")]))
  {
    TokenFacts();
    var polls := Polls(t, 0);
    assert [] + [Error] == [Error] && [] + [answer] == [answer];
    CheckCmdAnswered(p, "AT+CHUP", polls, Ok, Error, [], Error, [Frame([answer])] + later);
    var q := PortState("", [Frame([answer])] + later, p.sent + [CommandLine("AT+CHUP")]);
    CheckCmdAnswered(q, "ATH", polls, Ok, Error, [], answer, later);
  }

  /** `call` hangs up first, then dials; the dial's `OK` decides. */
  lemma CallAnswered(p: PortState, t: nat, phone: string, wait: nat, answer: string, later: seq<string>)
    requires t >= 1 && (answer == Ok || answer == Error)
    requires p.script == [Frame([Ok]), Frame([answer])] + later
    ensures Call(p, t, phone, wait) ==
            (answer == Ok, PortState("", later, p.sent + [CommandLine("AT+CHUP"), CommandLine("ATD" + phone + ";")]))
  {
    TokenFacts();
    assert [] + [Ok] == [Ok] && [] + [answer] == [answer];
    CheckCmdAnswered(p, "AT+CHUP", Polls(t, 0), Ok, Error, [], Ok, [Frame([answer])] + later);
    var q := PortState("", [Frame([answer])] + later, p.sent + [CommandLine("AT+CHUP")]);
    assert HangUp(p, t) == (true, q);
    CheckCmdAnswered(q, "ATD" + phone + ";", Polls(t, wait), Ok, Error, [], answer, later);
    assert q.sent + [CommandLine("ATD" + phone + ";")] == p.sent + [CommandLine("AT+CHUP"), CommandLine("ATD" + phone + ";")];
  }

  /** `reCall` hangs up first, then redials the last number; the redial's `OK` decides. */
  lemma ReCallAnswered(p: PortState, t: nat, wait: nat, answer: string, later: seq<string>)
    requires t >= 1 && (answer == Ok || answer == Error)
    requires p.script == [Frame([Ok]), Frame([answer])] + later
    ensures ReCall(p, t, wait) ==
            (answer == Ok, PortState("", later, p.sent + [CommandLine("AT+CHUP"), CommandLine("ATDL;")]))
  {
    TokenFacts();
    assert [] + [Ok] == [Ok] && [] + [answer] == [answer];
    CheckCmdAnswered(p, "AT+CHUP", Polls(t, 0), Ok, Error, [], Ok, [Frame([answer])] + later);
    var q := PortState("", [Frame([answer])] + later, p.sent + [CommandLine("AT+CHUP")]);
    assert HangUp(p, t) == (true, q);
    CheckCmdAnswered(q, "ATDL;", Polls(t, wait), Ok, Error, [], answer, later);
    assert q.sent + [CommandLine("ATDL;")] == p.sent + [CommandLine("AT+CHUP"), CommandLine("ATDL;")];
  }

  /**
   * `call` when `AT+CHUP` is refused: `ATH` is tried, its answer is
   * ignored, and the dial's `OK` alone decides.
   */
  lemma CallAfterRefusedHangUp(p: PortState, t: nat, phone: string, wait: nat, hangUp: string, answer: string,
                               later: seq<string>)
    requires t >= 1 && (hangUp == Ok || hangUp == Error) && (answer == Ok || answer == Error)
    requires p.script == [Frame([Error]), Frame([hangUp]), Frame([answer])] + later
    ensures Call(p, t, phone, wait) ==
            (answer == Ok, PortState("", later, p.sent + [CommandLine("AT+CHUP"), CommandLine("ATH"),
                                                          CommandLine("ATD" + phone + ";")]))
  {
    TokenFacts();
    assert p.script == [Frame([Error]), Frame([hangUp])] + ([Frame([answer])] + later);
    HangUpFallsBack(p, t, hangUp, [Frame([answer])] + later);
    var q := PortState("", [Frame([answer])] + later, p.sent + [CommandLine("AT+CHUP"), CommandLine("ATH")]);
    assert HangUp(p, t).1 == q;
    assert [] + [answer] == [answer];
    CheckCmdAnswered(q, "ATD" + phone + ";", Polls(t, wait), Ok, Error, [], answer, later);
    assert q.sent + [CommandLine("ATD" + phone + ";")] ==
           p.sent + [CommandLine("AT+CHUP"), CommandLine("ATH"), CommandLine("ATD" + phone + ";")];
  }

  // ---------------------------------------------------------------- PIN

  /** A `+CPIN: READY` answer means no PIN is required. */
  lemma PinReadyAnswered(p: PortState, t: nat, later: seq<string>)
    requires t >= 1
    requires p.script == [Frame(["", "+CPIN: READY", "", Ok])] + later
    ensures PinRequired(p, t) == (false, PortState(Frame(["", Ok]), later, p.sent + [CommandLine("AT+CPIN?")]))
  {
    TokenFacts();
    var line := "+CPIN: READY";
    NoCrNoEol(line);
    assert line == "+CPIN: " + "READY";
    ContainsSuffix("+CPIN: ", "READY");
    FourLines("", line, "", Ok);
    CheckCmdAnsweredThen(p, "AT+CPIN?", Polls(t, 0), "READY", Error, [""], line, ["", Ok], later);
  }

  /** Any other `+CPIN` answer (`SIM PIN`, `SIM PUK`, ...) means the PIN is required. */
  lemma PinNeededAnswered(p: PortState, t: nat, code: string)
    requires t >= 1 && '\r' !in code && !Contains("+CPIN: " + code, "READY")
    requires p.script == [Frame(["", "+CPIN: " + code, "", Ok])]
    ensures PinRequired(p, t) == (true, PortState("", [], p.sent + [CommandLine("AT+CPIN?")]))
  {
    var line := "+CPIN: " + code;
    PinLineQuiet(code);
    TokenFacts();
    NotContainsWithout(Ok, "READY", 'R');
    var lines := ["", line, "", Ok];
    assert forall k :: 0 <= k < |lines| ==> NoEol(lines[k]) && !BoolDecides(lines[k], "READY", Error);
    CheckCmdUnanswered(p, "AT+CPIN?", Polls(t, 0), "READY", Error, lines);
  }

  /** A `+CPIN` line that does not say `READY` decides nothing for the `READY` check. */
  lemma PinLineQuiet(code: string)
    requires '\r' !in code && !Contains("+CPIN: " + code, "READY")
    ensures NoEol("+CPIN: " + code) && !BoolDecides("+CPIN: " + code, "READY", Error)
  {
    var line := "+CPIN: " + code;
    NoCrNoEol(line);
    assert line[0] != Error[0];
  }

  // ---------------------------------------------------------------- sending an SMS

  /**
   * `sendSMS` against a modem that shows its prompt at the first sleep and
   * answers at the next: the prompt is skipped and the answer decides.
   */
  lemma SendSmsAnswered(p: PortState, t: nat, phone: string, msg: string, networkDelay: nat,
                        prompt: string, lines: seq<string>, last: string, later: seq<string>)
    requires t >= 1
    requires NoEol(prompt) && !BoolDecides(prompt, Ok, Error)
    requires forall k :: 0 <= k < |lines| ==> NoEol(lines[k]) && !BoolDecides(lines[k], Ok, Error)
    requires NoEol(last) && BoolDecides(last, Ok, Error)
    requires p.script == [prompt, Frame(lines + [last])] + later
    ensures SendSms(p, t, phone, msg, networkDelay) ==
            (Contains(last, Ok), PortState("", later, p.sent + [CommandLine("AT+CMGS=\"" + phone + "\""), msg + CtrlZ]))
  {
    CheckCmdPrompted(p, "AT+CMGS=\"" + phone + "\"", msg + CtrlZ, Polls(t, networkDelay), Ok, Error, prompt, lines, last, later);
  }

  // ---------------------------------------------------------------- listing SMS

  /** A record the module can send over the line: no carriage return in any field or body line. */
  predicate Sendable(r: Sms, body: seq<string>) {
    && '\r' !in r.status && '\r' !in r.phone && '\r' !in r.date && '\r' !in r.time
    && (forall k :: 0 <= k < |body| ==> '\r' !in body[k])
  }

  /** A printed header is one line, longer than its `+CMGL: ` prefix. */
  lemma HeaderLinePlain(r: Sms)
    requires '\r' !in r.status && '\r' !in r.phone && '\r' !in r.date && '\r' !in r.time
    ensures NoEol(HeaderLine(r)) && |HeaderLine(r)| >= 7
  {
    IntNoCr(r.index);
    var fields := [IntToString(r.index), "\"" + r.status + "\"", "\"" + r.phone + "\"", "",
                   "\"" + r.date, r.time + "\""];
    assert forall k :: 0 <= k < |fields| ==> '\r' !in fields[k];
    FieldsLinePlain("+CMGL: ", fields);
  }

  /** Every line of a listing is one of the headers or a line of one of the bodies. */
  lemma {:induction false} LinesFrom(heads: seq<string>, bodies: seq<seq<string>>)
    requires |heads| == |bodies|
    ensures forall line :: line in Lines(heads, bodies) ==>
              line in heads || exists k :: 0 <= k < |bodies| && line in bodies[k]
    decreases |heads|
  {
    if heads != [] {
      LinesFrom(heads[1..], bodies[1..]);
      forall line | line in Lines(heads, bodies)
        ensures line in heads || exists k :: 0 <= k < |bodies| && line in bodies[k]
      {
        if line !in [heads[0]] + bodies[0] {
          assert line in Lines(heads[1..], bodies[1..]);
          if line !in heads[1..] {
            var k :| 0 <= k < |bodies[1..]| && line in bodies[1..][k];
            assert line in bodies[k + 1];
          }
        } else if line !in bodies[0] {
          assert line == heads[0];
        }
      }
    }
  }

  /**
   * The lines of a listing are non-empty single lines, and one is `OK`
   * only when a body line is.
   */
  lemma ListingLines(records: seq<Sms>, bodies: seq<seq<string>>)
    requires |records| == |bodies|
    requires forall k :: 0 <= k < |records| ==> Listable(records[k], bodies[k]) && Sendable(records[k], bodies[k])
    ensures forall line :: line in Listing(records, bodies) ==>
              line != "" && NoEol(line) && (line == Ok ==> exists k :: 0 <= k < |bodies| && Ok in bodies[k])
  {
    var heads := Headers(records);
    LinesFrom(heads, bodies);
    forall line | line in Listing(records, bodies)
      ensures line != "" && NoEol(line) && (line == Ok ==> exists k :: 0 <= k < |bodies| && Ok in bodies[k])
    {
      if line in heads {
        var k :| 0 <= k < |heads| && heads[k] == line;
        HeaderLinePlain(records[k]);
      } else {
        var k :| 0 <= k < |bodies| && line in bodies[k];
        var j :| 0 <= j < |bodies[k]| && bodies[k][j] == line;
        assert Listable(records[k], bodies[k]) && Sendable(records[k], bodies[k]);
        NoCrNoEol(line);
      }
    }
  }

  /** A listing with no `OK` inside a message is a reply payload of single lines. */
  lemma ListingPayload(records: seq<Sms>, bodies: seq<seq<string>>)
    requires |records| == |bodies|
    requires forall k :: 0 <= k < |records| ==>
               Listable(records[k], bodies[k]) && Sendable(records[k], bodies[k]) && Ok !in bodies[k]
    ensures var lines := Listing(records, bodies);
            Payload(lines, Ok, "") && forall k :: 0 <= k < |lines| ==> NoEol(lines[k])
  {
    var lines := Listing(records, bodies);
    ListingLines(records, bodies);
    forall k | 0 <= k < |lines|
      ensures lines[k] != "" && NoEol(lines[k]) && lines[k] != Ok
    {
      assert lines[k] in lines;
    }
  }

  /**
   * `getSMS` against a module that lists the records (no body line being
   * `OK`) and then `OK`: one listing command, and the records come back.
   */
  lemma GetSmsAnswered(p: PortState, t: nat, filter: string, records: seq<Sms>, bodies: seq<seq<string>>)
    requires t >= 1 && |records| == |bodies|
    requires forall k :: 0 <= k < |records| ==>
               Listable(records[k], bodies[k]) && Sendable(records[k], bodies[k]) && Ok !in bodies[k]
    requires |records| > 0 ==> records[|records| - 1] !in records[..|records| - 1]
    requires p.script == [Frame(Listing(records, bodies) + [Ok])]
    ensures GetSms(p, t, filter) == (records, PortState("", [], p.sent + [CommandLine(ListCommand(filter))]))
  {
    TokenFacts();
    var polls := Polls(t, 0);
    var lines := Listing(records, bodies);
    ListingPayload(records, bodies);
    assert Frame(lines + [Ok]) + "" == Frame(lines + [Ok]);
    FullCmdReply(p, ListCommand(filter), "", polls, Ok, "", lines, "", []);
    var q := PortState("", [], p.sent + [CommandLine(ListCommand(filter))]);
    if |lines| > 0 {
      NotEmptyLineSilent(q, polls, "", "");
    }
    assert SmsLines(p, t, filter) == (lines, q);
    ListingRoundTrip(records, bodies);
  }

  // ---------------------------------------------------------------- deleteSMS

  /** A selector printed from an index deletes exactly that index, with one command. */
  lemma DeleteSmsByIndex(p: PortState, t: nat, index: int)
    ensures DeleteSms(p, t, IntToString(index)) == DeleteOne(p, t, index)
    ensures DeleteSms(p, t, IntToString(index)).1.sent == p.sent + [DeleteCommand(index)]
  {
    IntRoundTrip(index);
  }

  /** Deleting the records of `a + b` is deleting those of `a`, then those of `b`; true when both are. */
  lemma {:induction false} DeleteEachSplit(p: PortState, t: nat, a: seq<Sms>, b: seq<Sms>)
    ensures DeleteEach(p, t, a + b) ==
            (DeleteEach(p, t, a).0 && DeleteEach(DeleteEach(p, t, a).1, t, b).0,
             DeleteEach(DeleteEach(p, t, a).1, t, b).1)
    decreases |a|
  {
    if a == [] {
      assert a + b == b;
    } else {
      assert (a + b)[0] == a[0] && (a + b)[1..] == a[1..] + b;
      DeleteEachSplit(DeleteOne(p, t, a[0].index).1, t, a[1..], b);
    }
  }

  /** Whether the delete of record `k` succeeds, the port being as the deletes before it left it. */
  function DeletedAt(p: PortState, t: nat, records: seq<Sms>, k: nat): bool
    requires k < |records|
  {
    DeleteOne(DeleteEach(p, t, records[..k]).1, t, records[k].index).0
  }

  /** The verdict of every record's delete, in record order. */
  function Verdicts(p: PortState, t: nat, records: seq<Sms>): (v: seq<bool>)
    ensures |v| == |records| && forall k :: 0 <= k < |records| ==> v[k] == DeletedAt(p, t, records, k)
  {
    seq(|records|, k requires 0 <= k < |records| => DeletedAt(p, t, records, k))
  }

  /** The delete loop reports true exactly when no record's delete failed. */
  lemma {:induction false} DeleteEachAllDeleted(p: PortState, t: nat, records: seq<Sms>)
    ensures DeleteEach(p, t, records).0 <==> false !in Verdicts(p, t, records)
    decreases |records|
  {
    if records != [] {
      var n := |records|;
      var pre := records[..n - 1];
      assert records == pre + [records[n - 1]];
      DeleteEachSplit(p, t, pre, [records[n - 1]]);
      DeleteEachOne(DeleteEach(p, t, pre).1, t, records[n - 1]);
      DeleteEachAllDeleted(p, t, pre);
      VerdictsSnoc(p, t, records);
    }
  }

  /** The verdicts of a record sequence are those of all but its last record, then the last one's. */
  lemma VerdictsSnoc(p: PortState, t: nat, records: seq<Sms>)
    requires records != []
    ensures Verdicts(p, t, records) ==
            Verdicts(p, t, records[..|records| - 1]) +
            [DeleteOne(DeleteEach(p, t, records[..|records| - 1]).1, t, records[|records| - 1].index).0]
  {
    var n := |records|;
    var pre := records[..n - 1];
    var v := Verdicts(p, t, records);
    var u := Verdicts(p, t, pre);
    var last := DeleteOne(DeleteEach(p, t, pre).1, t, records[n - 1].index).0;
    forall k | 0 <= k < n
      ensures v[k] == (u + [last])[k]
    {
      if k < n - 1 {
        DeletedAtKept(p, t, records, k);
      }
    }
  }

  lemma DeleteEachOne(p: PortState, t: nat, r: Sms)
    ensures DeleteEach(p, t, [r]) == DeleteOne(p, t, r.index)
  {
    assert [r][1..] == [];
  }

  /** Adding a record at the end leaves the verdicts of the earlier deletes as they were. */
  lemma DeletedAtKept(p: PortState, t: nat, records: seq<Sms>, k: nat)
    requires k < |records| - 1
    ensures DeletedAt(p, t, records, k) == DeletedAt(p, t, records[..|records| - 1], k)
  {
    assert records[..k] == records[..|records| - 1][..k];
  }

  /**
   * A failed delete, at any position, makes the result false, and the
   * delete commands of all later records are still sent.
   */
  lemma DeleteFailureSticks(p: PortState, t: nat, records: seq<Sms>, k: nat)
    requires k < |records| && !DeletedAt(p, t, records, k)
    ensures !DeleteEach(p, t, records).0
    ensures DeleteEach(p, t, records).1.sent == p.sent + DeleteCommands(records)
  {
    DeleteEachAllDeleted(p, t, records);
    assert Verdicts(p, t, records)[k] == false;
  }

  /** One bare `OK` or `ERROR` reply per command. */
  function Replies(answers: seq<string>): (s: seq<string>)
    ensures |s| == |answers| && forall k :: 0 <= k < |answers| ==> s[k] == Frame([answers[k]])
  {
    seq(|answers|, k requires 0 <= k < |answers| => Frame([answers[k]]))
  }

  /** Against one `OK` or `ERROR` per delete, the loop is true exactly when all were `OK`. */
  lemma {:induction false} DeleteEachAnswered(p: PortState, t: nat, records: seq<Sms>, answers: seq<string>, later: seq<string>)
    requires t >= 1 && |answers| == |records|
    requires forall k :: 0 <= k < |answers| ==> answers[k] == Ok || answers[k] == Error
    requires p.rx == "" && p.script == Replies(answers) + later
    ensures DeleteEach(p, t, records) ==
            (Error !in answers, PortState("", later, p.sent + DeleteCommands(records)))
    decreases |records|
  {
    if records == [] {
      assert Replies(answers) + later == later;
    } else {
      var q := PortState("", Replies(answers[1..]) + later, p.sent + [DeleteCommand(records[0].index)]);
      DeleteEachFirstAnswered(p, t, records, answers, later, q);
      DeleteEachAnswered(q, t, records[1..], answers[1..], later);
      ErrorFreeCons(answers);
    }
  }

  /** The first delete of the loop meets its scripted answer, and the rest of the loop follows. */
  lemma DeleteEachFirstAnswered(p: PortState, t: nat, records: seq<Sms>, answers: seq<string>, later: seq<string>, q: PortState)
    requires t >= 1 && |answers| == |records| && records != []
    requires answers[0] == Ok || answers[0] == Error
    requires p.script == Replies(answers) + later
    requires q == PortState("", Replies(answers[1..]) + later, p.sent + [DeleteCommand(records[0].index)])
    ensures DeleteEach(p, t, records) ==
            (answers[0] == Ok && DeleteEach(q, t, records[1..]).0, DeleteEach(q, t, records[1..]).1)
  {
    RepliesCons(answers, later);
    TokenAnswered(p, t, "AT+CMGD=" + IntToString(records[0].index), answers[0], Replies(answers[1..]) + later);
  }

  lemma RepliesCons(answers: seq<string>, later: seq<string>)
    requires answers != []
    ensures Replies(answers) + later == [Frame([answers[0]])] + (Replies(answers[1..]) + later)
  {
    assert Replies(answers) == [Frame([answers[0]])] + Replies(answers[1..]);
  }

  lemma ErrorFreeCons(answers: seq<string>)
    requires answers != [] && (answers[0] == Ok || answers[0] == Error)
    ensures Error !in answers <==> answers[0] == Ok && Error !in answers[1..]
  {
    TokenFacts();
    assert answers == [answers[0]] + answers[1..];
  }


  /**
   * `getSMS` when the module goes quiet after its listing: the look-ahead
   * waits out its timeout, and the records come back with one listing command.
   */
  lemma GetSmsListedThen(p: PortState, t: nat, filter: string, records: seq<Sms>, bodies: seq<seq<string>>, later: seq<string>)
    requires t >= 1 && |records| == |bodies| && |records| > 0
    requires forall k :: 0 <= k < |records| ==>
               Listable(records[k], bodies[k]) && Sendable(records[k], bodies[k]) && Ok !in bodies[k]
    requires records[|records| - 1] !in records[..|records| - 1]
    requires p.script == [Frame(Listing(records, bodies) + [Ok])] + Quiet(Polls(t, 0)) + later
    ensures GetSms(p, t, filter) == (records, PortState("", later, p.sent + [CommandLine(ListCommand(filter))]))
  {
    var polls := Polls(t, 0);
    var lines := Listing(records, bodies);
    ListingPayload(records, bodies);
    assert Frame(lines + [Ok]) + "" == Frame(lines + [Ok]);
    assert p.script == [Frame(lines + [Ok]) + ""] + (Quiet(polls) + later);
    FullCmdReply(p, ListCommand(filter), "", polls, Ok, "", lines, "", Quiet(polls) + later);
    var q := PortState("", Quiet(polls) + later, p.sent + [CommandLine(ListCommand(filter))]);
    NotEmptyLineQuiet(q, polls, "", later);
    assert lines != [] by {
      assert lines == Lines(Headers(records), bodies);
    }
    assert SmsLines(p, t, filter) == (lines, q.(script := later));
    ListingRoundTrip(records, bodies);
  }

  /**
   * `deleteSMS` with a message type: the records listed are deleted one by
   * one, and the result is true exactly when every delete was answered `OK`.
   */
  lemma DeleteSmsListed(p: PortState, t: nat, selector: string, records: seq<Sms>, bodies: seq<seq<string>>,
                        answers: seq<string>, later: seq<string>)
    requires ParseInt(selector).None?
    requires t >= 1 && |records| == |bodies| && |records| > 0 && |answers| == |records|
    requires forall k :: 0 <= k < |records| ==>
               Listable(records[k], bodies[k]) && Sendable(records[k], bodies[k]) && Ok !in bodies[k]
    requires records[|records| - 1] !in records[..|records| - 1]
    requires forall k :: 0 <= k < |answers| ==> answers[k] == Ok || answers[k] == Error
    requires p.script == [Frame(Listing(records, bodies) + [Ok])] + Quiet(Polls(t, 0)) + Replies(answers) + later
    ensures DeleteSms(p, t, selector) ==
            (Error !in answers,
             PortState("", later, p.sent + [CommandLine(ListCommand(selector))] + DeleteCommands(records)))
  {
    var head := [Frame(Listing(records, bodies) + [Ok])] + Quiet(Polls(t, 0));
    ConcatAssoc(head, Replies(answers), later);
    GetSmsListedThen(p, t, selector, records, bodies, Replies(answers) + later);
    var q := PortState("", Replies(answers) + later, p.sent + [CommandLine(ListCommand(selector))]);
    DeleteEachAnswered(q, t, records, answers, later);
    DeleteSmsByListing(p, t, selector, GetSms(p, t, selector), DeleteEach(q, t, records));
  }

  /** A selector that is not an integer deletes the records `getSMS` returns for it. */
  lemma DeleteSmsByListing(p: PortState, t: nat, selector: string, listed: (seq<Sms>, PortState), r: (bool, PortState))
    requires ParseInt(selector).None?
    requires listed == GetSms(p, t, selector) && r == DeleteEach(listed.1, t, listed.0)
    ensures DeleteSms(p, t, selector) == r
  {
  }
}
