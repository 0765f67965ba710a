/**
 * The single-line reply parsers of the GSM TC35 driver: quote stripping,
 * the signal-strength conversion of `+CSQ`, and the prefix/split field
 * extraction of `+COPS`, `+COPN`, `+CCLK`, `^SLCD`, `+CLCC` and `+CPAS`.
 * Each takes the line the single-line match returned ("" when nothing
 * matched) and yields what the corresponding `get...` method returns.
 */
module Fields {
  import opened Text

  // Call states as the module reports them in the third field of `+CLCC`.
  const NoCall := -1
  const Active := 0
  const Held := 1
  const Dialing := 2
  const Alerting := 3
  const Incoming := 4
  const Waiting := 5

  predicate IsQuote(c: char) {
    c == '"' || c == '\''
  }

  /**
   * Drops one leading and then one trailing quote (`"` or `'`) from a text
   * of two characters or more; shorter texts are left alone.
   */
  function DeleteQuote(s: string): (r: string)
    ensures |s| <= 1 ==> r == s
    ensures |s| > 1 ==>
      var lead := if IsQuote(s[0]) then 1 else 0;
      var trail := if IsQuote(s[|s| - 1]) then 1 else 0;
      r == s[lead..|s| - trail]
    ensures |s| - 2 <= |r| <= |s|
  {
    if |s| > 1 then
      var t := if IsQuote(s[0]) then s[1..] else s;
      if |t| >= 1 && IsQuote(t[|t| - 1]) then t[..|t| - 1] else t
    else s
  }

  /** Stripping a text wrapped in double quotes gives the text back, whatever it holds. */
  lemma DeleteQuoteOfQuoted(t: string)
    ensures DeleteQuote("\"" + t + "\"") == t
  {
    var s := "\"" + t + "\"";
    assert s[1..|s| - 1] == t;
  }

  /** A text that neither starts nor ends with a quote comes back unchanged. */
  lemma DeleteQuoteOfUnquoted(t: string)
    requires t == [] || (!IsQuote(t[0]) && !IsQuote(t[|t| - 1]))
    ensures DeleteQuote(t) == t
  {
  }

  // ---------------------------------------------------------------- +CSQ

  /**
   * The raw received-signal value the `AT+CSQ` reply line carries, or -1
   * when the line is too short, lacks the `+CSQ: ` prefix, or its first
   * field is not an integer.
   */
  function CsqRaw(line: string): (raw: int)
    ensures raw != -1 ==> |line| > 7 && StartsWith(line, "+CSQ: ")
    ensures raw != -1 ==> ParseInt(Split(line[6..], ',')[0]) == Some(raw)
  {
    if |line| > 7 && line[..6] == "+CSQ: " then
      match ParseInt(Split(line[6..], ',')[0])
      case Some(n) => n
      case None => -1
    else -1
  }

  /**
   * The dBm value of a raw signal value: values from 0 up to 98 map
   * linearly (0 -> -113, 31 -> -51), anything else means unknown (-1).
   */
  function RawToDbm(raw: int): (dbm: int)
    ensures dbm != -1 ==> 0 <= raw < 99
    ensures 0 <= raw < 99 ==> (dbm + 113) / 2 == raw && dbm % 2 == 1 && -113 <= dbm <= 83
  {
    if raw >= 99 || raw < 0 then -1 else 2 * raw - 113
  }

  /** `getSignalStrength`'s result for the `+CSQ` line it read. */
  function SignalFromLine(line: string): (dbm: int)
    ensures dbm == -1 || (dbm % 2 == 1 && -113 <= dbm <= 83)
  {
    RawToDbm(CsqRaw(line))
  }

  /** The `+CSQ: <rssi>,<ber>` line a module sends. */
  function CsqLine(rssi: int, ber: int): string {
    "+CSQ: " + Join([IntToString(rssi), IntToString(ber)], ',')
  }

  /**
   * Reading back a well-formed `+CSQ` line: a raw value in [0, 99) becomes
   * 2*raw - 113 dBm, every other raw value (99 = unknown, negatives) -1.
   */
  lemma SignalOfCsqLine(rssi: int, ber: int)
    ensures SignalFromLine(CsqLine(rssi, ber)) == if 0 <= rssi < 99 then 2 * rssi - 113 else -1
    ensures CsqRaw(CsqLine(rssi, ber)) == rssi
  {
    var fields := [IntToString(rssi), IntToString(ber)];
    IntToStringPlain(rssi);
    IntToStringPlain(ber);
    var line := CsqLine(rssi, ber);
    assert line[6..] == Join(fields, ',');
    SplitJoin(fields, ',');
    IntRoundTrip(rssi);
  }

  // ---------------------------------------------------------------- +COPS / +COPN

  /** `getOperatorName`'s result for the `+COPS` line it read: the third field, unquoted. */
  function OperatorFromCops(line: string): (name: string)
    ensures name != "" ==> |line| > 8 && StartsWith(line, "+COPS: ")
    ensures name != "" ==> |Split(line[7..], ',')| >= 3 && name == DeleteQuote(Split(line[7..], ',')[2])
  {
    if |line| > 8 && line[..7] == "+COPS: " then
      var fields := Split(line[7..], ',');
      if |fields| >= 3 then DeleteQuote(fields[2]) else ""
    else ""
  }

  /** The `+COPS: <mode>,<format>,"<name>"` line a module sends. */
  function CopsLine(mode: int, format: int, name: string): string {
    "+COPS: " + Join([IntToString(mode), IntToString(format), "\"" + name + "\""], ',')
  }

  /** The operator name comes back from a well-formed `+COPS` line. */
  lemma OperatorOfCopsLine(mode: int, format: int, name: string)
    requires ',' !in name
    ensures OperatorFromCops(CopsLine(mode, format, name)) == name
  {
    var fields := [IntToString(mode), IntToString(format), "\"" + name + "\""];
    IntToStringPlain(mode);
    IntToStringPlain(format);
    assert ',' !in fields[2];
    SplitJoin(fields, ',');
    assert CopsLine(mode, format, name)[7..] == Join(fields, ',');
    DeleteQuoteOfQuoted(name);
  }

  /** The operator name one `+COPN` line of `getOperatorNames` contributes ("" for none). */
  function OperatorFromCopn(line: string): (name: string)
    ensures name != "" ==> |line| > 8 && StartsWith(line, "+COPN: ")
    ensures name != "" ==> |Split(line[7..], ',')| >= 2 && name == DeleteQuote(Split(line[7..], ',')[1])
  {
    if |line| > 8 && line[..7] == "+COPN: " then
      var fields := Split(line[7..], ',');
      if |fields| >= 2 then DeleteQuote(fields[1]) else ""
    else ""
  }

  /** The `+COPN: "<numeric>","<name>"` line a module sends. */
  function CopnLine(numeric: string, name: string): string {
    "+COPN: " + Join(["\"" + numeric + "\"", "\"" + name + "\""], ',')
  }

  /** The operator name comes back from a well-formed `+COPN` line. */
  lemma OperatorOfCopnLine(numeric: string, name: string)
    requires ',' !in numeric && ',' !in name
    ensures OperatorFromCopn(CopnLine(numeric, name)) == name
  {
    var fields := ["\"" + numeric + "\"", "\"" + name + "\""];
    assert ',' !in fields[0] && ',' !in fields[1];
    SplitJoin(fields, ',');
    assert CopnLine(numeric, name)[7..] == Join(fields, ',');
    DeleteQuoteOfQuoted(name);
  }

  /** The names `getOperatorNames` keeps: one per usable line, in line order. */
  function OperatorNamesFrom(lines: seq<string>): (names: seq<string>)
    ensures |names| <= |lines|
    ensures forall k :: 0 <= k < |names| ==> names[k] != ""
    decreases |lines|
  {
    if lines == [] then []
    else
      var name := OperatorFromCopn(lines[|lines| - 1]);
      OperatorNamesFrom(lines[..|lines| - 1]) + (if name != "" then [name] else [])
  }

  /** Names of consecutive blocks of lines come out in block order. */
  lemma {:induction false} OperatorNamesAppend(a: seq<string>, b: seq<string>)
    ensures OperatorNamesFrom(a + b) == OperatorNamesFrom(a) + OperatorNamesFrom(b)
    decreases |b|
  {
    if b != [] {
      var b' := b[..|b| - 1];
      assert (a + b)[..|a + b| - 1] == a + b';
      OperatorNamesAppend(a, b');
    } else {
      assert a + b == a;
    }
  }

  // ---------------------------------------------------------------- +CCLK / ^SLCD

  /** `getDateFromInternalClock`'s result for the `+CCLK` line it read. */
  function DateFromCclk(line: string): (date: string)
    ensures date != "" ==> |line| > 8 && StartsWith(line, "+CCLK: ") && date == DeleteQuote(line[7..])
  {
    if |line| > 8 && line[..7] == "+CCLK: " then DeleteQuote(line[7..]) else ""
  }

  /** The `+CCLK: "<date>"` line a module sends. */
  function CclkLine(date: string): string {
    "+CCLK: \"" + date + "\""
  }

  /** The date comes back from a well-formed `+CCLK` line. */
  lemma DateOfCclkLine(date: string)
    ensures DateFromCclk(CclkLine(date)) == date
  {
    var line := CclkLine(date);
    assert line[7..] == "\"" + date + "\"";
    DeleteQuoteOfQuoted(date);
  }

  /** `getLastCallDuration`'s result for the `^SLCD` line it read: the text after the prefix. */
  function DurationFromSlcd(line: string): (duration: string)
    ensures duration != "" <==> |line| > 7 && StartsWith(line, "^SLCD: ")
    ensures duration != "" ==> line == "^SLCD: " + duration
  {
    if |line| > 7 && line[..7] == "^SLCD: " then line[7..] else ""
  }

  // ---------------------------------------------------------------- +CLCC

  /**
   * `getCurrentCallState`'s result for the `+CLCC` line it read: the state
   * from field 2 and, when there are six fields or more, the unquoted number
   * from field 5; `(NoCall, "")` for a short or foreign line, fewer than three
   * fields or a non-integer state.
   */
  function CallStateFromClcc(line: string): (r: (int, string))
    ensures r.1 != "" ==> |line| > 8 && |Split(line[7..], ',')| >= 6 && r.1 == DeleteQuote(Split(line[7..], ',')[5])
    ensures !(|line| > 8 && StartsWith(line, "+CLCC: ")) ==> r == (NoCall, "")
    ensures |line| > 8 && StartsWith(line, "+CLCC: ") && |Split(line[7..], ',')| >= 3 ==>
      match ParseInt(Split(line[7..], ',')[2])
      case None => r == (NoCall, "")
      case Some(state) => r.0 == state
  {
    if |line| > 8 && line[..7] == "+CLCC: " then
      var fields := Split(line[7..], ',');
      if |fields| >= 3 then
        match ParseInt(fields[2])
        case None => (NoCall, "")
        case Some(state) => (state, if |fields| >= 6 then DeleteQuote(fields[5]) else "")
      else (NoCall, "")
    else (NoCall, "")
  }

  /** The `+CLCC: <id>,<dir>,<stat>,<mode>,<mpty>,"<number>",<type>` line a module sends. */
  function ClccLine(id: int, dir: int, stat: int, mode: int, mpty: int, number: string, numType: int): string {
    "+CLCC: " + Join([IntToString(id), IntToString(dir), IntToString(stat), IntToString(mode),
                      IntToString(mpty), "\"" + number + "\"", IntToString(numType)], ',')
  }

  /** State and number come back from a well-formed `+CLCC` line. */
  lemma CallStateOfClccLine(id: int, dir: int, stat: int, mode: int, mpty: int, number: string, numType: int)
    requires ',' !in number
    ensures CallStateFromClcc(ClccLine(id, dir, stat, mode, mpty, number, numType)) == (stat, number)
  {
    var fields := [IntToString(id), IntToString(dir), IntToString(stat), IntToString(mode),
                   IntToString(mpty), "\"" + number + "\"", IntToString(numType)];
    IntToStringPlain(id);
    IntToStringPlain(dir);
    IntToStringPlain(stat);
    IntToStringPlain(mode);
    IntToStringPlain(mpty);
    IntToStringPlain(numType);
    assert ',' !in fields[5];
    SplitJoin(fields, ',');
    assert ClccLine(id, dir, stat, mode, mpty, number, numType)[7..] == Join(fields, ',');
    IntRoundTrip(stat);
    DeleteQuoteOfQuoted(number);
  }

  // ---------------------------------------------------------------- +CPAS

  /** `isSomeoneCalling`: the `+CPAS` line holds the character 3 anywhere. */
  predicate SomeoneCallingFrom(line: string) {
    Contains(line, "3")
  }

  /** `isCallInProgress`: the `+CPAS` line holds the character 4 anywhere. */
  predicate CallInProgressFrom(line: string) {
    Contains(line, "4")
  }

  /**
   * On a one-digit `+CPAS: <d>` line the two polls never agree: 3 means
   * ringing, 4 means a call in progress.
   */
  lemma CpasPollsExclusive(d: char)
    ensures SomeoneCallingFrom("+CPAS: " + [d]) <==> d == '3'
    ensures CallInProgressFrom("+CPAS: " + [d]) <==> d == '4'
  {
    var line := "+CPAS: " + [d];
    ContainsChar(line, '3');
    ContainsChar(line, '4');
    assert "3" == ['3'] && "4" == ['4'];
    assert forall k :: 0 <= k < 7 ==> line[k] == "+CPAS: "[k];
    assert line[7] == d;
  }

  /**
   * The substring test is not exclusive in general: a line holding both
   * digits makes both polls true at once.
   */
  lemma CpasPollsOverlap(line: string)
    requires '3' in line && '4' in line
    ensures SomeoneCallingFrom(line) && CallInProgressFrom(line)
  {
    ContainsChar(line, '3');
    ContainsChar(line, '4');
    assert "3" == ['3'] && "4" == ['4'];
  }
}
