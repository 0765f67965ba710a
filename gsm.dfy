/**
 * The `GSMTC35` driver object: a serial port, the base timeout given to
 * `setup` and the initialisation flag. Its private transport reads and
 * writes the port step by step; each method is proved to leave the port
 * exactly as the matching function of `Wire` or `Session` says.
 */
module Modem {
  import opened Text
  import opened Fields
  import opened Wire
  import opened SmsListing
  import opened Session
  import opened SerialPort

  class Gsm {
    var port: Port
    /** Base timeout in seconds for every wait. */
    var timeoutSec: nat
    var initialized: bool

    /** `__init__`: no session yet, on a port that is not open. */
    constructor ()
      ensures !initialized && !port.isOpen && port.State() == PortState("", [], [])
    {
      initialized := false;
      port := new Port([], false);
      timeoutSec := 2;
    }

    // ---------------------------------------------------------------- transport

    /** `__readLine`: one character at a time up to the first `\r\n`, or until nothing is waiting. */
    method ReadLine() returns (line: string)
      modifies port
      ensures (line, port.rx) == CutLine(old(port.rx))
      ensures port.script == old(port.script) && port.sent == old(port.sent) && port.isOpen == old(port.isOpen)
    {
      ghost var rx0 := port.rx;
      line := "";
      while true
        invariant rx0 == line + port.rx && NoEol(line)
        invariant port.script == old(port.script) && port.sent == old(port.sent) && port.isOpen == old(port.isOpen)
        decreases |port.rx|
      {
        var c := port.Read(1);
        if c == "" {
          break;
        }
        ghost var before := line;
        line := line + c;
        if |line| >= 2 && line[|line| - 2..] == "\r\n" {
          line := line[..|line| - 2];
          CutAtEol(rx0, before, c, port.rx);
          assert rx0 == old(port.rx);
          return;
        }
        forall j | 0 <= j < |line|
          ensures !EolAt(line, j)
        {
          if j + 1 < |before| {
            assert !EolAt(before, j);
          }
        }
      }
      assert port.rx == "" && line == rx0;
      CutPartial(line);
      assert rx0 == old(port.rx);
    }

    /** `__deleteAllRxData`: read and drop everything waiting. */
    method DeleteAllRxData()
      modifies port
      ensures port.State() == old(port.State()).(rx := "") && port.isOpen == old(port.isOpen)
    {
      var waiting := port.InWaiting();
      if waiting <= 0 {
        return;
      }
      var _ := port.Read(waiting);
    }

    /**
     * `__waitDataContains`: read lines until one holds `content` (true) or
     * equals `err` (false), sleeping 100 ms whenever nothing is waiting,
     * until the deadline.
     */
    method WaitDataContains(content: string, err: string, additionalSec: nat) returns (found: bool)
      modifies port
      ensures (found, port.State()) == WaitContains(old(port.State()), Polls(timeoutSec, additionalSec), content, err)
      ensures port.isOpen == old(port.isOpen)
    {
      var polls := Polls(timeoutSec, additionalSec);
      ghost var goal := WaitContains(port.State(), polls, content, err);
      while polls > 0
        invariant WaitContains(port.State(), polls, content, err) == goal
        invariant port.isOpen == old(port.isOpen)
        decreases polls
      {
        var waiting := port.InWaiting();
        while waiting > 0
          invariant waiting == |port.rx|
          invariant WaitContains(port.State(), polls, content, err) == goal
          invariant port.isOpen == old(port.isOpen)
          decreases |port.rx|
        {
          var line := ReadLine();
          if Contains(line, content) {
            return true;
          }
          if err == line {
            return false;
          }
          waiting := port.InWaiting();
        }
        assert port.rx == "";
        port.Sleep();
        polls := polls - 1;
      }
      found := false;
    }

    /**
     * `__getNotEmptyLine`: read lines until a non-empty one holds `content`
     * (returned) or one equals a non-empty `err` (""), sleeping 100 ms
     * whenever nothing is waiting, until the deadline ("").
     */
    method GetNotEmptyLine(content: string, err: string, additionalSec: nat) returns (line: string)
      modifies port
      ensures (line, port.State()) == NotEmptyLine(old(port.State()), Polls(timeoutSec, additionalSec), content, err)
      ensures port.isOpen == old(port.isOpen)
    {
      var polls := Polls(timeoutSec, additionalSec);
      ghost var goal := NotEmptyLine(port.State(), polls, content, err);
      while polls > 0
        invariant NotEmptyLine(port.State(), polls, content, err) == goal
        invariant port.isOpen == old(port.isOpen)
        decreases polls
      {
        var waiting := port.InWaiting();
        while waiting > 0
          invariant waiting == |port.rx|
          invariant NotEmptyLine(port.State(), polls, content, err) == goal
          invariant port.isOpen == old(port.isOpen)
          decreases |port.rx|
        {
          line := ReadLine();
          if Contains(line, content) && |line| > 0 {
            return;
          }
          if |err| > 0 && err == line {
            return "";
          }
          waiting := port.InWaiting();
        }
        assert port.rx == "";
        port.Sleep();
        polls := polls - 1;
      }
      line := "";
    }

    /** `__sendLine`: the command and `\r\n`; then, when `after` is given, a 100 ms sleep and `after`. */
    method SendLine(before: string, after: string)
      modifies port
      ensures after == "" ==> port.State() == old(port.State()).(sent := old(port.sent) + [CommandLine(before)])
      ensures after != "" ==> port.State() == Tick(old(port.State())).(sent := old(port.sent) + [CommandLine(before), after])
      ensures port.isOpen == old(port.isOpen)
    {
      port.Write(CommandLine(before));
      if after != "" {
        port.Sleep();
        port.Write(after);
      }
    }

    /** What `__deleteAllRxData` followed by `__sendLine` leave on the port. */
    method FlushAndSendLine(cmd: string, after: string)
      modifies port
      ensures port.State() == FlushAndSend(old(port.State()), cmd, after)
      ensures port.isOpen == old(port.isOpen)
    {
      DeleteAllRxData();
      SendLine(cmd, after);
    }

    /** `__sendCmdAndCheckResult`. */
    method SendCmdAndCheckResult(cmd: string, after: string, additionalSec: nat, result: string, err: string)
        returns (ok: bool)
      modifies port
      ensures (ok, port.State()) == CheckCmd(old(port.State()), cmd, after, Polls(timeoutSec, additionalSec), result, err)
      ensures port.isOpen == old(port.isOpen)
    {
      FlushAndSendLine(cmd, after);
      ok := WaitDataContains(result, err, additionalSec);
    }

    /** `__sendCmdAndGetNotEmptyLine`. */
    method SendCmdAndGetNotEmptyLine(cmd: string, after: string, additionalSec: nat, content: string, err: string)
        returns (line: string)
      modifies port
      ensures (line, port.State()) == LineCmd(old(port.State()), cmd, after, Polls(timeoutSec, additionalSec), content, err)
      ensures port.isOpen == old(port.isOpen)
    {
      FlushAndSendLine(cmd, after);
      line := GetNotEmptyLine(content, err, additionalSec);
    }

    /**
     * `__sendCmdAndGetFullResult`: the non-empty lines before the line
     * `result`; none when the line `err` comes first.
     */
    method SendCmdAndGetFullResult(cmd: string, after: string, additionalSec: nat, result: string, err: string)
        returns (lines: seq<string>)
      modifies port
      ensures (lines, port.State()) == FullCmd(old(port.State()), cmd, after, Polls(timeoutSec, additionalSec), result, err)
      ensures port.isOpen == old(port.isOpen)
    {
      FlushAndSendLine(cmd, after);
      ghost var sent := port.State();
      var polls := Polls(timeoutSec, additionalSec);
      lines := [];
      while true
        invariant Collect(port.State(), polls, result, err, lines) == Collect(sent, polls, result, err, [])
        invariant FullCmd(old(port.State()), cmd, after, polls, result, err) == Collect(sent, polls, result, err, [])
        invariant port.isOpen == old(port.isOpen)
        decreases Size(port.State())
      {
        var line := GetNotEmptyLine("", err, additionalSec);
        if line == "" {
          return;
        }
        if result == line {
          return;
        } else if |err| > 0 && line == err {
          return [];
        }
        lines := lines + [line];
      }
    }

    // ---------------------------------------------------------------- setup

    /**
     * `setup`: close the previous port, open a new one on a modem that will
     * answer with `script` (`opens` says whether opening succeeded), and
     * configure the module; the port is closed again when that fails.
     */
    method Setup(script: seq<string>, opens: bool, timeout: nat) returns (ok: bool)
      modifies this, port
      ensures fresh(port) && timeoutSec == timeout && initialized == ok
      ensures (ok, port.State()) == Session.Setup(PortState("", script, []), timeout, opens)
      ensures port.isOpen == (opens && ok)
      ensures !old(port).isOpen
    {
      port.Close();
      timeoutSec := timeout;
      port := new Port(script, opens);
      var isInit := true;
      if port.isOpen {
        var echoOff := SendCmdAndCheckResult("ATE0", "", 0, Ok, Error);
        var clip := SendCmdAndCheckResult("AT+CLIP=1", "", 0, Ok, Error);
        var textMode := SendCmdAndCheckResult("AT+CMGF=1", "", 0, Ok, Error);
        if !textMode {
          isInit := false;
        }
      }
      initialized := isInit;
      if !initialized {
        port.Close();
      }
      ok := initialized;
    }

    // ---------------------------------------------------------------- information

    /** `isAlive`. */
    method IsAlive() returns (alive: bool)
      modifies port
      ensures (alive, port.State()) == Check(old(port.State()), timeoutSec, "AT")
      ensures port.isOpen == old(port.isOpen)
    {
      alive := SendCmdAndCheckResult("AT", "", 0, Ok, Error);
    }

    /** The body shared by the identification getters: the first non-empty line, then drop the `OK`. */
    method GetId(cmd: string) returns (id: string)
      modifies port
      ensures (id, port.State()) == Info(old(port.State()), timeoutSec, cmd)
      ensures port.isOpen == old(port.isOpen)
    {
      id := SendCmdAndGetNotEmptyLine(cmd, "", 0, "", Error);
      if id != "" {
        var _ := WaitDataContains(Ok, Error, 0);
      }
    }

    /** `getManufacturerId`. */
    method GetManufacturerId() returns (id: string)
      modifies port
      ensures (id, port.State()) == Info(old(port.State()), timeoutSec, "AT+CGMI")
      ensures port.isOpen == old(port.isOpen)
    {
      id := GetId("AT+CGMI");
    }

    /** `getModelId`. */
    method GetModelId() returns (id: string)
      modifies port
      ensures (id, port.State()) == Info(old(port.State()), timeoutSec, "AT+CGMM")
      ensures port.isOpen == old(port.isOpen)
    {
      id := GetId("AT+CGMM");
    }

    /** `getRevisionId`. */
    method GetRevisionId() returns (id: string)
      modifies port
      ensures (id, port.State()) == Info(old(port.State()), timeoutSec, "AT+CGMR")
      ensures port.isOpen == old(port.isOpen)
    {
      id := GetId("AT+CGMR");
    }

    /** `getIMEI`. */
    method GetImei() returns (id: string)
      modifies port
      ensures (id, port.State()) == Info(old(port.State()), timeoutSec, "AT+CGSN")
      ensures port.isOpen == old(port.isOpen)
    {
      id := GetId("AT+CGSN");
    }

    /** `getIMSI`. */
    method GetImsi() returns (id: string)
      modifies port
      ensures (id, port.State()) == Info(old(port.State()), timeoutSec, "AT+CIMI")
      ensures port.isOpen == old(port.isOpen)
    {
      id := GetId("AT+CIMI");
    }

    /** `setModuleToManufacturerState`. */
    method SetModuleToManufacturerState() returns (ok: bool)
      modifies port
      ensures (ok, port.State()) == Check(old(port.State()), timeoutSec, "AT&F0")
      ensures port.isOpen == old(port.isOpen)
    {
      ok := SendCmdAndCheckResult("AT&F0", "", 0, Ok, Error);
    }

    /** `switchOff`. */
    method SwitchOff() returns (off: bool)
      modifies port
      ensures (off, port.State()) == Session.SwitchOff(old(port.State()), timeoutSec)
      ensures port.isOpen == old(port.isOpen)
    {
      off := SendCmdAndCheckResult("AT^SMSO", "", 0, "MS OFF", Error);
      var _ := WaitDataContains(Ok, Error, 0);
    }

    /** `getOperatorName`. */
    method GetOperatorName() returns (name: string)
      modifies port
      ensures (name, port.State()) == OperatorName(old(port.State()), timeoutSec)
      ensures port.isOpen == old(port.isOpen)
    {
      name := "";
      var selected := SendCmdAndCheckResult("AT+COPS=3,0", "", 0, Ok, Error);
      if !selected {
        return;
      }
      var line := SendCmdAndGetNotEmptyLine("AT+COPS?", "", 0, "+COPS: ", Error);
      if line == "" {
        return;
      }
      name := OperatorFromCops(line);
      if name != "" {
        var _ := WaitDataContains(Ok, Error, 0);
      }
    }

    /** `getSignalStrength`. */
    method GetSignalStrength() returns (dbm: int)
      modifies port
      ensures (dbm, port.State()) == SignalStrength(old(port.State()), timeoutSec)
      ensures port.isOpen == old(port.isOpen)
    {
      dbm := -1;
      var line := SendCmdAndGetNotEmptyLine("AT+CSQ", "", 0, "+CSQ: ", Error);
      if line == "" {
        return;
      }
      var raw := CsqRaw(line);
      if raw != -1 {
        var _ := WaitDataContains(Ok, Error, 0);
      }
      dbm := RawToDbm(raw);
    }

    /** `getOperatorNames`: the name of every usable `+COPN` line, in order. */
    method GetOperatorNames() returns (names: seq<string>)
      modifies port
      ensures (names, port.State()) == OperatorNames(old(port.State()), timeoutSec)
      ensures port.isOpen == old(port.isOpen)
    {
      var operators := SendCmdAndGetFullResult("AT+COPN", "", 0, Ok, Error);
      names := [];
      for i := 0 to |operators|
        invariant names == OperatorNamesFrom(operators[..i])
      {
        assert operators[..i + 1][..i] == operators[..i];
        var name := OperatorFromCopn(operators[i]);
        if name != "" {
          names := names + [name];
        }
      }
      assert operators[..|operators|] == operators;
    }

    // ---------------------------------------------------------------- clock

    /** `setCurrentDateToInternalClock`, given the formatted local time. */
    method SetCurrentDateToInternalClock(now: string) returns (ok: bool)
      modifies port
      ensures (ok, port.State()) == SetDate(old(port.State()), timeoutSec, now)
      ensures port.isOpen == old(port.isOpen)
    {
      ok := SendCmdAndCheckResult("AT+CCLK=\"" + now + "\"", "", 0, Ok, Error);
    }

    /** `getDateFromInternalClock`. */
    method GetDateFromInternalClock() returns (date: string)
      modifies port
      ensures (date, port.State()) == GetDate(old(port.State()), timeoutSec)
      ensures port.isOpen == old(port.isOpen)
    {
      date := "";
      var line := SendCmdAndGetNotEmptyLine("AT+CCLK?", "", 0, "+CCLK: ", Error);
      if line == "" {
        return;
      }
      date := DateFromCclk(line);
      if date != "" {
        var _ := WaitDataContains(Ok, Error, 0);
      }
    }

    // ---------------------------------------------------------------- SMS

    /** `sendSMS`. */
    method SendSMS(phone: string, msg: string, networkDelaySec: nat) returns (sent: bool)
      modifies port
      ensures (sent, port.State()) == SendSms(old(port.State()), timeoutSec, phone, msg, networkDelaySec)
      ensures port.isOpen == old(port.isOpen)
    {
      sent := SendCmdAndCheckResult("AT+CMGS=\"" + phone + "\"", msg + CtrlZ, networkDelaySec, Ok, Error);
    }

    /**
     * `getSMS`: list until a listing is not followed by one more line (the
     * module's final `OK` must not be part of a message), then parse.
     */
    method GetSMS(filter: string) returns (all: seq<Sms>)
      modifies port
      ensures (all, port.State()) == GetSms(old(port.State()), timeoutSec, filter)
      ensures port.isOpen == old(port.isOpen)
    {
      var retrieved := false;
      var lines: seq<string> := [];
      while !retrieved
        invariant !retrieved ==> SmsLines(port.State(), timeoutSec, filter) == SmsLines(old(port.State()), timeoutSec, filter)
        invariant retrieved ==> (lines, port.State()) == SmsLines(old(port.State()), timeoutSec, filter)
        invariant port.isOpen == old(port.isOpen)
        decreases Size(port.State()), !retrieved
      {
        lines := SendCmdAndGetFullResult(ListCommand(filter), "", 0, Ok, "");
        if |lines| > 0 {
          var additional := GetNotEmptyLine("", "", 0);
          if |additional| > 0 {
            lines := lines + [Ok, additional];
          } else {
            retrieved := true;
          }
        } else {
          retrieved := true;
        }
      }
      all := ParseSmsLines(lines);
    }

    /** `__deleteSpecificSMS`. */
    method DeleteSpecificSMS(index: int) returns (deleted: bool)
      modifies port
      ensures (deleted, port.State()) == DeleteOne(old(port.State()), timeoutSec, index)
      ensures port.isOpen == old(port.isOpen)
    {
      deleted := SendCmdAndCheckResult("AT+CMGD=" + IntToString(index), "", 0, Ok, Error);
    }

    /** `deleteSMS`: an index deletes that message; a type deletes every message it lists. */
    method DeleteSMS(selector: string) returns (allDeleted: bool)
      modifies port
      ensures (allDeleted, port.State()) == DeleteSms(old(port.State()), timeoutSec, selector)
      ensures port.isOpen == old(port.isOpen)
    {
      var index := ParseInt(selector);
      if index.Some? {
        allDeleted := DeleteSpecificSMS(index.value);
        return;
      }
      allDeleted := true;
      var records := GetSMS(selector);
      ghost var listed := port.State();
      for i := 0 to |records|
        invariant var rest := DeleteEach(port.State(), timeoutSec, records[i..]);
                  DeleteEach(listed, timeoutSec, records) == (allDeleted && rest.0, rest.1)
        invariant port.isOpen == old(port.isOpen)
      {
        assert records[i..][1..] == records[i + 1..];
        var deleted := DeleteSpecificSMS(records[i].index);
        allDeleted := allDeleted && deleted;
      }
    }

    // ---------------------------------------------------------------- calls

    /** `hangUpCall`. */
    method HangUpCall() returns (hungUp: bool)
      modifies port
      ensures (hungUp, port.State()) == HangUp(old(port.State()), timeoutSec)
      ensures port.isOpen == old(port.isOpen)
    {
      hungUp := SendCmdAndCheckResult("AT+CHUP", "", 0, Ok, Error);
      if !hungUp {
        hungUp := SendCmdAndCheckResult("ATH", "", 0, Ok, Error);
      }
    }

    /** `isSomeoneCalling`. */
    method IsSomeoneCalling(waitSec: nat) returns (calling: bool)
      modifies port
      ensures (calling, port.State()) == SomeoneCalling(old(port.State()), timeoutSec, waitSec)
      ensures port.isOpen == old(port.isOpen)
    {
      var line := SendCmdAndGetNotEmptyLine("AT+CPAS", "", waitSec, "+CPAS:", Error);
      calling := Contains(line, "3");
    }

    /** `isCallInProgress`. */
    method IsCallInProgress() returns (inProgress: bool)
      modifies port
      ensures (inProgress, port.State()) == CallInProgress(old(port.State()), timeoutSec)
      ensures port.isOpen == old(port.isOpen)
    {
      var line := SendCmdAndGetNotEmptyLine("AT+CPAS", "", 0, "+CPAS:", Error);
      inProgress := Contains(line, "4");
    }

    /** `pickUpCall`. */
    method PickUpCall() returns (pickedUp: bool)
      modifies port
      ensures (pickedUp, port.State()) == Check(old(port.State()), timeoutSec, "ATA;")
      ensures port.isOpen == old(port.isOpen)
    {
      pickedUp := SendCmdAndCheckResult("ATA;", "", 0, Ok, Error);
    }

    /** `call`: hang up first so that an `OK` of a call in progress is not taken for an answer. */
    method CallNumber(phone: string, waitSec: nat) returns (calling: bool)
      modifies port
      ensures (calling, port.State()) == Call(old(port.State()), timeoutSec, phone, waitSec)
      ensures port.isOpen == old(port.isOpen)
    {
      var _ := HangUpCall();
      calling := SendCmdAndCheckResult("ATD" + phone + ";", "", waitSec, Ok, Error);
    }

    /** `reCall`. */
    method ReCallLast(waitSec: nat) returns (calling: bool)
      modifies port
      ensures (calling, port.State()) == ReCall(old(port.State()), timeoutSec, waitSec)
      ensures port.isOpen == old(port.isOpen)
    {
      var _ := HangUpCall();
      calling := SendCmdAndCheckResult("ATDL;", "", waitSec, Ok, Error);
    }

    /** `getLastCallDuration`. */
    method GetLastCallDuration() returns (duration: string)
      modifies port
      ensures (duration, port.State()) == LastCallDuration(old(port.State()), timeoutSec)
      ensures port.isOpen == old(port.isOpen)
    {
      duration := "";
      var line := SendCmdAndGetNotEmptyLine("AT^SLCD", "", 0, "^SLCD: ", Error);
      if line == "" {
        return;
      }
      duration := DurationFromSlcd(line);
      if duration != "" {
        var _ := WaitDataContains(Ok, Error, 0);
      }
    }

    /** `getCurrentCallState`: `OK` with no `+CLCC` line before it means no call. */
    method GetCurrentCallState() returns (state: int, phone: string)
      modifies port
      ensures (state, phone, port.State()) == CurrentCallState(old(port.State()), timeoutSec)
      ensures port.isOpen == old(port.isOpen)
    {
      var line := SendCmdAndGetNotEmptyLine("AT+CLCC", "", 0, "+CLCC:", Ok);
      state, phone := CallStateFromClcc(line).0, CallStateFromClcc(line).1;
    }

    // ---------------------------------------------------------------- PIN

    /** `isPinRequired`. */
    method IsPinRequired() returns (required: bool)
      modifies port
      ensures (required, port.State()) == PinRequired(old(port.State()), timeoutSec)
      ensures port.isOpen == old(port.isOpen)
    {
      var ready := SendCmdAndCheckResult("AT+CPIN?", "", 0, "READY", Error);
      required := !ready;
    }

    /** `enterPin`. */
    method EnterPin(pin: string) returns (accepted: bool)
      modifies port
      ensures (accepted, port.State()) == Session.EnterPin(old(port.State()), timeoutSec, pin)
      ensures port.isOpen == old(port.isOpen)
    {
      accepted := SendCmdAndCheckResult("AT+CPIN=" + pin, "", 0, Ok, Error);
    }
  }

  /** A line read character by character ends at the first `\r\n`: that is where `CutLine` cuts. */
  lemma CutAtEol(rx: string, before: string, c: string, rest: string)
    requires rx == before + c + rest && |c| == 1 && NoEol(before)
    requires var line := before + c; |line| >= 2 && line[|line| - 2..] == "\r\n"
    ensures CutLine(rx) == ((before + c)[..|before + c| - 2], rest)
  {
    var line := before + c;
    var cut := line[..|line| - 2];
    assert line == cut + "\r\n";
    assert rx == cut + "\r\n" + rest;
    assert NoEol(cut) by {
      forall j | 0 <= j < |cut|
        ensures !EolAt(cut, j)
      {
        assert !EolAt(before, j);
      }
    }
    CutFramed(cut, rest);
  }
}
