/**
 * The public operations of the driver as functions of the port state: the
 * commands each one writes, the matching policy it waits with, and how it
 * reads its answer. `t` is the base timeout in seconds given to `setup`.
 */
module Session {
  import opened Text
  import opened Fields
  import opened Wire
  import opened SmsListing

  const Ok: string := "OK"
  const Error: string := "ERROR"
  const CtrlZ: string := "\U{1A}"

  /** `__sendCmdAndCheckResult(cmd)` with the default tokens and no extra time. */
  function Check(p: PortState, t: nat, cmd: string): (r: (bool, PortState))
    ensures r.1.sent == p.sent + [CommandLine(cmd)]
    ensures Size(r.1) <= Size(p)
  {
    CheckCmd(p, cmd, "", Polls(t, 0), Ok, Error)
  }

  /** `__waitDataContains(OK, ERROR)` used to drop the final `OK` of a reply. */
  function DrainOk(p: PortState, t: nat): (q: PortState)
    ensures q.sent == p.sent
    ensures Size(q) <= Size(p)
  {
    WaitContains(p, Polls(t, 0), Ok, Error).1
  }

  // ---------------------------------------------------------------- setup

  /**
   * `setup` once the port is created: when it is open, echo off, caller
   * identification on, then text mode; only the text-mode command decides
   * the result. A port that did not open writes nothing and reports true.
   */
  function Setup(p: PortState, t: nat, opens: bool): (r: (bool, PortState))
    ensures !opens ==> r == (true, p)
    ensures opens ==> r.1.sent == p.sent + [CommandLine("ATE0"), CommandLine("AT+CLIP=1"), CommandLine("AT+CMGF=1")]
  {
    if !opens then (true, p)
    else
      var echo := Check(p, t, "ATE0");
      var clip := Check(echo.1, t, "AT+CLIP=1");
      Check(clip.1, t, "AT+CMGF=1")
  }

  // ---------------------------------------------------------------- information

  /**
   * The identification queries (`AT+CGMI`, `AT+CGMM`, `AT+CGMR`, `AT+CGSN`,
   * `AT+CIMI`): the first non-empty reply line; a final `OK` is dropped
   * after a non-empty answer.
   */
  function Info(p: PortState, t: nat, cmd: string): (r: (string, PortState))
    ensures r.1.sent == p.sent + [CommandLine(cmd)]
    ensures r.0 != "" ==> NoEol(r.0)
  {
    var (id, q) := LineCmd(p, cmd, "", Polls(t, 0), "", Error);
    if id != "" then (id, DrainOk(q, t)) else (id, q)
  }

  /** `switchOff`: `AT^SMSO` waits for `MS OFF`, then the final `OK` is dropped. */
  function SwitchOff(p: PortState, t: nat): (r: (bool, PortState))
    ensures r.1.sent == p.sent + [CommandLine("AT^SMSO")]
  {
    var (off, q) := CheckCmd(p, "AT^SMSO", "", Polls(t, 0), "MS OFF", Error);
    (off, DrainOk(q, t))
  }

  /**
   * `getOperatorName`: select the long alphanumeric format with
   * `AT+COPS=3,0`, and only when that succeeds ask `AT+COPS?`.
   */
  function OperatorName(p: PortState, t: nat): (r: (string, PortState))
    ensures r.1.sent == p.sent + [CommandLine("AT+COPS=3,0")] || r.1.sent == p.sent + [CommandLine("AT+COPS=3,0"), CommandLine("AT+COPS?")]
    ensures r.1.sent == p.sent + [CommandLine("AT+COPS=3,0"), CommandLine("AT+COPS?")] <==> Check(p, t, "AT+COPS=3,0").0
  {
    var (selected, q) := Check(p, t, "AT+COPS=3,0");
    if !selected then ("", q)
    else
      var (line, q2) := LineCmd(q, "AT+COPS?", "", Polls(t, 0), "+COPS: ", Error);
      if line == "" then ("", q2)
      else
        var name := OperatorFromCops(line);
        (name, if name != "" then DrainOk(q2, t) else q2)
  }

  /**
   * `getSignalStrength`: the dBm value of the `+CSQ` reply, -1 when there
   * is none or it is unusable; the final `OK` is dropped when a raw value
   * other than -1 was read.
   */
  function SignalStrength(p: PortState, t: nat): (r: (int, PortState))
    ensures r.1.sent == p.sent + [CommandLine("AT+CSQ")]
    ensures r.0 == -1 || (r.0 % 2 == 1 && -113 <= r.0 <= 83)
  {
    var (line, q) := LineCmd(p, "AT+CSQ", "", Polls(t, 0), "+CSQ: ", Error);
    if line == "" then (-1, q)
    else
      var raw := CsqRaw(line);
      (RawToDbm(raw), if raw != -1 then DrainOk(q, t) else q)
  }

  /** `getOperatorNames`: one name per usable `+COPN` line of the full reply. */
  function OperatorNames(p: PortState, t: nat): (r: (seq<string>, PortState))
    ensures r.1.sent == p.sent + [CommandLine("AT+COPN")]
    ensures forall k :: 0 <= k < |r.0| ==> r.0[k] != ""
  {
    var (lines, q) := FullCmd(p, "AT+COPN", "", Polls(t, 0), Ok, Error);
    (OperatorNamesFrom(lines), q)
  }

  // ---------------------------------------------------------------- clock

  /** `setCurrentDateToInternalClock`, with the formatted local time `now` as a parameter. */
  function SetDate(p: PortState, t: nat, now: string): (r: (bool, PortState))
    ensures r.1.sent == p.sent + [CommandLine("AT+CCLK=\"" + now + "\"")]
  {
    Check(p, t, "AT+CCLK=\"" + now + "\"")
  }

  /** `getDateFromInternalClock`: the unquoted `+CCLK` date, "" when there is none. */
  function GetDate(p: PortState, t: nat): (r: (string, PortState))
    ensures r.1.sent == p.sent + [CommandLine("AT+CCLK?")]
  {
    var (line, q) := LineCmd(p, "AT+CCLK?", "", Polls(t, 0), "+CCLK: ", Error);
    if line == "" then ("", q)
    else
      var date := DateFromCclk(line);
      (date, if date != "" then DrainOk(q, t) else q)
  }

  // ---------------------------------------------------------------- SMS

  /** `sendSMS`: the number in the command, then the text and Ctrl-Z, with extra network time. */
  function SendSms(p: PortState, t: nat, phone: string, msg: string, networkDelay: nat): (r: (bool, PortState))
    ensures r.1.sent == p.sent + [CommandLine("AT+CMGS=\"" + phone + "\""), msg + CtrlZ]
  {
    CheckCmd(p, "AT+CMGS=\"" + phone + "\"", msg + CtrlZ, Polls(t, networkDelay), Ok, Error)
  }

  function ListCommand(filter: string): string {
    "AT+CMGL=\"" + filter + "\""
  }

  /** `n` copies of the listing command. */
  function ListQueries(filter: string, n: nat): (s: seq<string>)
    ensures |s| == n
    ensures forall k :: 0 <= k < n ==> s[k] == CommandLine(ListCommand(filter))
  {
    seq(n, k => CommandLine(ListCommand(filter)))
  }

  /**
   * The line-gathering loop of `getSMS`: list with no error token; when
   * the listing is not empty, look one line further; a further line sends
   * the query again (the lines gathered so far are replaced), none ends it.
   */
  function SmsLines(p: PortState, t: nat, filter: string): (r: (seq<string>, PortState))
    ensures Size(r.1) <= Size(p)
    ensures Payload(r.0, Ok, "")
    ensures exists n: nat :: n >= 1 && r.1.sent == p.sent + ListQueries(filter, n)
    decreases Size(p)
  {
    var (lines, q) := FullCmd(p, ListCommand(filter), "", Polls(t, 0), Ok, "");
    assert q.sent == p.sent + ListQueries(filter, 1);
    if |lines| > 0 then
      var (extra, q2) := NotEmptyLine(q, Polls(t, 0), "", "");
      if |extra| > 0 then
        var r := SmsLines(q2, t, filter);
        ghost var n: nat :| n >= 1 && r.1.sent == q2.sent + ListQueries(filter, n);
        assert r.1.sent == p.sent + ListQueries(filter, n + 1);
        r
      else (lines, q2)
    else (lines, q)
  }

  /** `getSMS`: the records parsed from the gathered lines. */
  function GetSms(p: PortState, t: nat, filter: string): (r: (seq<Sms>, PortState))
    ensures exists n: nat :: n >= 1 && r.1.sent == p.sent + ListQueries(filter, n)
  {
    var (lines, q) := SmsLines(p, t, filter);
    (ParseListing(lines), q)
  }

  /** `__deleteSpecificSMS`. */
  function DeleteOne(p: PortState, t: nat, index: int): (r: (bool, PortState))
    ensures r.1.sent == p.sent + [DeleteCommand(index)]
  {
    Check(p, t, "AT+CMGD=" + IntToString(index))
  }

  /** The command that deletes the SMS stored at `index`. */
  function DeleteCommand(index: int): string {
    CommandLine("AT+CMGD=" + IntToString(index))
  }

  /** One delete command per record, in record order. */
  function DeleteCommands(records: seq<Sms>): (cmds: seq<string>)
    ensures |cmds| == |records|
    decreases |records|
  {
    if records == [] then [] else [DeleteCommand(records[0].index)] + DeleteCommands(records[1..])
  }

  lemma ConcatAssoc(a: seq<string>, b: seq<string>, c: seq<string>)
    ensures (a + b) + c == a + (b + c)
  {
  }

  /** The delete loop of `deleteSMS`: every record is deleted; true when every delete succeeded. */
  function DeleteEach(p: PortState, t: nat, records: seq<Sms>): (r: (bool, PortState))
    ensures r.1.sent == p.sent + DeleteCommands(records)
    ensures records == [] ==> r.0
    decreases |records|
  {
    if records == [] then (true, p)
    else
      var (deleted, q) := DeleteOne(p, t, records[0].index);
      var (rest, q2) := DeleteEach(q, t, records[1..]);
      ConcatAssoc(p.sent, [DeleteCommand(records[0].index)], DeleteCommands(records[1..]));
      (deleted && rest, q2)
  }

  /**
   * `deleteSMS`: a selector that reads as an integer deletes that index
   * alone; any other selector lists the records of that type and deletes
   * each of them.
   */
  function DeleteSms(p: PortState, t: nat, selector: string): (r: (bool, PortState))
    ensures ParseInt(selector).Some? ==>
      r.1.sent == p.sent + [DeleteCommand(ParseInt(selector).value)]
    ensures ParseInt(selector).None? ==>
      r.1.sent == GetSms(p, t, selector).1.sent + DeleteCommands(GetSms(p, t, selector).0)
  {
    match ParseInt(selector)
    case Some(index) => DeleteOne(p, t, index)
    case None =>
      var (all, q) := GetSms(p, t, selector);
      DeleteEach(q, t, all)
  }

  // ---------------------------------------------------------------- calls

  /** `hangUpCall`: `AT+CHUP`, and `ATH` only when that failed. */
  function HangUp(p: PortState, t: nat): (r: (bool, PortState))
    ensures Check(p, t, "AT+CHUP").0 ==> r == (true, Check(p, t, "AT+CHUP").1)
    ensures !Check(p, t, "AT+CHUP").0 ==> r.1.sent == p.sent + [CommandLine("AT+CHUP"), CommandLine("ATH")]
    ensures r.1.sent == p.sent + [CommandLine("AT+CHUP")] || r.1.sent == p.sent + [CommandLine("AT+CHUP"), CommandLine("ATH")]
  {
    var (hungUp, q) := Check(p, t, "AT+CHUP");
    if hungUp then (true, q) else Check(q, t, "ATH")
  }

  /** `isSomeoneCalling`: the `+CPAS` line, waited for `wait` extra seconds, holds a 3. */
  function SomeoneCalling(p: PortState, t: nat, wait: nat): (r: (bool, PortState))
    ensures r.1.sent == p.sent + [CommandLine("AT+CPAS")]
  {
    var (line, q) := LineCmd(p, "AT+CPAS", "", Polls(t, wait), "+CPAS:", Error);
    (SomeoneCallingFrom(line), q)
  }

  /** `isCallInProgress`: the `+CPAS` line holds a 4. */
  function CallInProgress(p: PortState, t: nat): (r: (bool, PortState))
    ensures r.1.sent == p.sent + [CommandLine("AT+CPAS")]
  {
    var (line, q) := LineCmd(p, "AT+CPAS", "", Polls(t, 0), "+CPAS:", Error);
    (CallInProgressFrom(line), q)
  }

  /** `call`: hang up any call first, then dial and wait `wait` extra seconds for `OK`. */
  function Call(p: PortState, t: nat, phone: string, wait: nat): (r: (bool, PortState))
    ensures r.1.sent == HangUp(p, t).1.sent + [CommandLine("ATD" + phone + ";")]
  {
    var (_, q) := HangUp(p, t);
    CheckCmd(q, "ATD" + phone + ";", "", Polls(t, wait), Ok, Error)
  }

  /** `reCall`: hang up any call first, then redial the last number. */
  function ReCall(p: PortState, t: nat, wait: nat): (r: (bool, PortState))
    ensures r.1.sent == HangUp(p, t).1.sent + [CommandLine("ATDL;")]
  {
    var (_, q) := HangUp(p, t);
    CheckCmd(q, "ATDL;", "", Polls(t, wait), Ok, Error)
  }

  /** `getLastCallDuration`: the text after `^SLCD: `, "" when there is none. */
  function LastCallDuration(p: PortState, t: nat): (r: (string, PortState))
    ensures r.1.sent == p.sent + [CommandLine("AT^SLCD")]
  {
    var (line, q) := LineCmd(p, "AT^SLCD", "", Polls(t, 0), "^SLCD: ", Error);
    if line == "" then ("", q)
    else
      var duration := DurationFromSlcd(line);
      (duration, if duration != "" then DrainOk(q, t) else q)
  }

  /** `getCurrentCallState`: the first `+CLCC` line, with `OK` (no call listed) as the error token. */
  function CurrentCallState(p: PortState, t: nat): (r: (int, string, PortState))
    ensures r.2.sent == p.sent + [CommandLine("AT+CLCC")]
  {
    var (line, q) := LineCmd(p, "AT+CLCC", "", Polls(t, 0), "+CLCC:", Ok);
    var (state, phone) := CallStateFromClcc(line);
    (state, phone, q)
  }

  // ---------------------------------------------------------------- PIN

  /** `isPinRequired`: the PIN is needed unless the `AT+CPIN?` reply holds `READY`. */
  function PinRequired(p: PortState, t: nat): (r: (bool, PortState))
    ensures r.1.sent == p.sent + [CommandLine("AT+CPIN?")]
  {
    var (ready, q) := CheckCmd(p, "AT+CPIN?", "", Polls(t, 0), "READY", Error);
    (!ready, q)
  }

  /** `enterPin`. */
  function EnterPin(p: PortState, t: nat, pin: string): (r: (bool, PortState))
    ensures r.1.sent == p.sent + [CommandLine("AT+CPIN=" + pin)]
  {
    Check(p, t, "AT+CPIN=" + pin)
  }
}
