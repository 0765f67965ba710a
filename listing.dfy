/**
 * The `+CMGL` SMS listing parser of `getSMS`: header lines open records,
 * the lines after a header form its body, joined with "\n".
 */
module SmsListing {
  import opened Text
  import opened Fields

  /** One entry of the list `getSMS` returns (the dictionary with its six keys). */
  datatype Sms = Sms(index: int, status: string, phone: string, date: string, time: string, body: string)

  /** The `sms` dictionary being filled: empty, or a record whose header parsed. */
  datatype Draft = NoDraft | Drafting(sms: Sms)

  /** The parser's two variables: the records already stored and the current draft. */
  datatype ParseState = ParseState(done: seq<Sms>, draft: Draft)

  predicate IsHeader(line: string) {
    StartsWith(line, "+CMGL: ")
  }

  /**
   * The record a header announces, with an empty body: fields 0, 1, 2, 4
   * and 5 after the prefix are index, status, number, date and time.
   * `None` when there are fewer than six fields or the index is not an integer.
   */
  function HeaderRecord(line: string): (r: Option<Sms>)
    requires IsHeader(line)
    ensures r.Some? <==> |Split(line[7..], ',')| >= 6 && ParseInt(Split(line[7..], ',')[0]).Some?
    ensures r.Some? ==>
      var f := Split(line[7..], ',');
      && Some(r.value.index) == ParseInt(f[0])
      && r.value.status == DeleteQuote(f[1])
      && r.value.phone == DeleteQuote(f[2])
      && r.value.date == DeleteQuote(f[4])
      && r.value.time == DeleteQuote(f[5])
      && r.value.body == ""
  {
    var f := Split(line[7..], ',');
    if |f| >= 6 then
      match ParseInt(f[0])
      case None => None
      case Some(index) =>
        Some(Sms(index, DeleteQuote(f[1]), DeleteQuote(f[2]), DeleteQuote(f[4]), DeleteQuote(f[5]), ""))
    else None
  }

  /** The draft stored when a new header arrives. */
  function Flushed(st: ParseState): seq<Sms> {
    if st.draft.Drafting? then st.done + [st.draft.sms] else st.done
  }

  /** A body line appended to a body: a "\n" separates it from a non-empty body. */
  function AppendBody(body: string, line: string): string {
    if body != "" then body + "\n" + line else line
  }

  /** What the parser does with one line. */
  function Step(st: ParseState, line: string): (next: ParseState)
    ensures IsHeader(line) ==> next.done == Flushed(st)
    ensures !IsHeader(line) ==> next.done == st.done
    ensures !IsHeader(line) && st.draft.NoDraft? ==> next == st
  {
    if IsHeader(line) then
      ParseState(Flushed(st), match HeaderRecord(line) case None => NoDraft case Some(r) => Drafting(r))
    else if st.draft.Drafting? then
      ParseState(st.done, Drafting(st.draft.sms.(body := AppendBody(st.draft.sms.body, line))))
    else
      st
  }

  /** The parser run over a sequence of lines, first to last. */
  function Run(st: ParseState, lines: seq<string>): ParseState
    decreases |lines|
  {
    if lines == [] then st else Run(Step(st, lines[0]), lines[1..])
  }

  /** One trailing "\n" is dropped from a body. */
  function TrimNewline(sms: Sms): Sms {
    var b := sms.body;
    if |b| >= 1 && b[|b| - 1] == '\n' then sms.(body := b[..|b| - 1]) else sms
  }

  /**
   * Storing the last record after the loop: only a draft whose header
   * parsed, only when an equal record is not already stored, and with one
   * trailing "\n" of its body trimmed.
   */
  function Finish(st: ParseState): seq<Sms> {
    match st.draft
    case NoDraft => st.done
    case Drafting(r) => if r in st.done then st.done else st.done + [TrimNewline(r)]
  }

  /** The SMS records `getSMS` builds from the listing lines. */
  function ParseListing(lines: seq<string>): seq<Sms> {
    Finish(Run(ParseState([], NoDraft), lines))
  }

  /** `getSMS`'s parsing loop, one line at a time. */
  method ParseSmsLines(lines: seq<string>) returns (allSms: seq<Sms>)
    ensures allSms == ParseListing(lines)
  {
    allSms := [];
    var sms := NoDraft;
    for i := 0 to |lines|
      invariant Run(ParseState([], NoDraft), lines) == Run(ParseState(allSms, sms), lines[i..])
    {
      assert lines[i..][1..] == lines[i + 1..];
      var line := lines[i];
      if StartsWith(line, "+CMGL: ") {
        if sms.Drafting? {
          allSms := allSms + [sms.sms];
        }
        sms := NoDraft;
        var fields := Split(line[7..], ',');
        if |fields| >= 6 {
          var index := ParseInt(fields[0]);
          if index.Some? {
            sms := Drafting(Sms(index.value, DeleteQuote(fields[1]), DeleteQuote(fields[2]),
                                DeleteQuote(fields[4]), DeleteQuote(fields[5]), ""));
          }
        }
      } else if sms.Drafting? {
        if sms.sms.body != "" {
          sms := Drafting(sms.sms.(body := sms.sms.body + "\n" + line));
        } else {
          sms := Drafting(sms.sms.(body := line));
        }
      }
      // any other line is logged as not usable and skipped
    }
    assert lines[|lines|..] == [];
    match sms
    case NoDraft =>
    case Drafting(r) =>
      if r !in allSms {
        allSms := allSms + [TrimNewline(r)];
      }
  }

  // ---------------------------------------------------------------- properties

  lemma {:induction false} RunAppend(st: ParseState, a: seq<string>, b: seq<string>)
    ensures Run(st, a + b) == Run(Run(st, a), b)
    decreases |a|
  {
    if a == [] {
      assert a + b == b;
    } else {
      assert (a + b)[1..] == a[1..] + b;
      RunAppend(Step(st, a[0]), a[1..], b);
    }
  }

  /** Lines before any header (and after a header that did not parse) are dropped. */
  lemma {:induction false} OrphanLinesDropped(done: seq<Sms>, lines: seq<string>)
    requires forall k :: 0 <= k < |lines| ==> !IsHeader(lines[k])
    ensures Run(ParseState(done, NoDraft), lines) == ParseState(done, NoDraft)
    decreases |lines|
  {
    if lines != [] {
      OrphanLinesDropped(done, lines[1..]);
    }
  }

  /** A header that does not parse stores the previous record and opens no draft. */
  lemma BadHeaderDropsRecord(st: ParseState, line: string)
    requires IsHeader(line)
    requires |Split(line[7..], ',')| < 6 || ParseInt(Split(line[7..], ',')[0]).None?
    ensures Step(st, line) == ParseState(Flushed(st), NoDraft)
  {
  }

  /** A body built from its lines: "\n" before every line but the first. */
  function JoinBody(lines: seq<string>): string {
    Join(lines, '\n')
  }

  lemma {:induction false} AppendBodyJoin(lines: seq<string>, line: string)
    requires forall k :: 0 <= k < |lines| ==> lines[k] != ""
    ensures AppendBody(JoinBody(lines), line) == JoinBody(lines + [line])
    decreases |lines|
  {
    if |lines| == 1 {
      assert lines + [line] == [lines[0], line];
      assert JoinBody([line]) == line;
      assert JoinBody([lines[0], line]) == lines[0] + "\n" + JoinBody([line]);
    } else if |lines| > 1 {
      AppendBodyJoin(lines[1..], line);
      assert (lines + [line])[1..] == lines[1..] + [line];
      assert JoinBody(lines[1..]) != "" by {
        JoinNonEmpty(lines[1..]);
      }
    }
  }

  lemma JoinNonEmpty(lines: seq<string>)
    requires |lines| > 0 && lines[0] != ""
    ensures Join(lines, '\n') != ""
  {
  }

  /** Body lines that follow a header are joined with "\n" into the draft's body. */
  lemma {:induction false} BodyLinesJoined(done: seq<Sms>, r: Sms, pre: seq<string>, lines: seq<string>)
    requires forall k :: 0 <= k < |pre| ==> pre[k] != ""
    requires forall k :: 0 <= k < |lines| ==> !IsHeader(lines[k]) && lines[k] != ""
    requires r.body == JoinBody(pre)
    ensures Run(ParseState(done, Drafting(r)), lines) == ParseState(done, Drafting(r.(body := JoinBody(pre + lines))))
    decreases |lines|
  {
    if lines == [] {
      assert pre + lines == pre;
    } else {
      AppendBodyJoin(pre, lines[0]);
      BodyLinesJoined(done, r.(body := JoinBody(pre + [lines[0]])), pre + [lines[0]], lines[1..]);
      assert pre + [lines[0]] + lines[1..] == pre + lines;
    }
  }

  /** The body a draft reaches from `body` once each of `lines` is appended to it. */
  function BodyAfter(body: string, lines: seq<string>): string
    decreases |lines|
  {
    if lines == [] then body else BodyAfter(AppendBody(body, lines[0]), lines[1..])
  }

  /** Lines that are not headers only grow the draft's body. */
  lemma {:induction false} DraftGrows(done: seq<Sms>, r: Sms, lines: seq<string>)
    requires forall k :: 0 <= k < |lines| ==> !IsHeader(lines[k])
    ensures Run(ParseState(done, Drafting(r)), lines) ==
            ParseState(done, Drafting(r.(body := BodyAfter(r.body, lines))))
    decreases |lines|
  {
    if lines != [] {
      DraftGrows(done, r.(body := AppendBody(r.body, lines[0])), lines[1..]);
    }
  }

  /**
   * The records of a listing whose last header parses: every earlier
   * record exactly as the header after it stored it, then the last record,
   * its body built from the lines after its header and one trailing "\n"
   * trimmed, unless an equal record is already stored.
   */
  lemma LastRecordTrimmed(pre: seq<string>, head: string, r: Sms, body: seq<string>)
    requires IsHeader(head) && HeaderRecord(head) == Some(r)
    requires forall k :: 0 <= k < |body| ==> !IsHeader(body[k])
    ensures var earlier := Flushed(Run(ParseState([], NoDraft), pre));
            var last := r.(body := BodyAfter("", body));
            ParseListing(pre + [head] + body) ==
              if last in earlier then earlier else earlier + [TrimNewline(last)]
  {
    var st := Run(ParseState([], NoDraft), pre);
    RunAppend(ParseState([], NoDraft), pre + [head], body);
    RunAppend(ParseState([], NoDraft), pre, [head]);
    assert Run(st, [head]) == ParseState(Flushed(st), Drafting(r));
    DraftGrows(Flushed(st), r, body);
  }

  /** The last record loses the "\n" that ends its one body line. */
  lemma LastBodyNewlineTrimmed(head: string, r: Sms, b: string)
    requires IsHeader(head) && HeaderRecord(head) == Some(r) && !IsHeader(b + "\n")
    ensures ParseListing([head, b + "\n"]) == [r.(body := b)]
  {
    var line := b + "\n";
    var first := Step(ParseState([], NoDraft), head);
    assert first == ParseState([], Drafting(r));
    assert Step(first, line) == ParseState([], Drafting(r.(body := line)));
    var lines: seq<string> := [head, line];
    var grown := ParseState([], Drafting(r.(body := line)));
    assert lines[1..] == [line] && lines[2..] == [];
    assert Run(ParseState([], NoDraft), lines) == Run(first, [line]) == Run(grown, []);
    assert line[..|b|] == b;
    assert TrimNewline(r.(body := line)) == r.(body := b);
  }

  /** A record stored by the header after it keeps the "\n" that ends its body. */
  lemma EarlierBodyNewlineKept(head: string, r: Sms, b: string, next: string, r2: Sms)
    requires IsHeader(head) && HeaderRecord(head) == Some(r) && !IsHeader(b + "\n")
    requires IsHeader(next) && HeaderRecord(next) == Some(r2)
    ensures ParseListing([head, b + "\n", next]) == [r.(body := b + "\n"), r2]
  {
    var full := r.(body := b + "\n");
    TwoHeadersRun(head, r, b + "\n", next, r2);
    assert full.body != r2.body;
    assert TrimNewline(r2) == r2;
  }

  lemma TwoHeadersRun(head: string, r: Sms, line: string, next: string, r2: Sms)
    requires IsHeader(head) && HeaderRecord(head) == Some(r) && !IsHeader(line)
    requires IsHeader(next) && HeaderRecord(next) == Some(r2)
    ensures Run(ParseState([], NoDraft), [head, line, next]) == ParseState([r.(body := line)], Drafting(r2))
  {
    var full := r.(body := line);
    var first := Step(ParseState([], NoDraft), head);
    assert first == ParseState([], Drafting(r));
    var grown := Step(first, line);
    assert grown == ParseState([], Drafting(full));
    assert Step(grown, next) == ParseState([full], Drafting(r2));
    var lines: seq<string> := [head, line, next];
    assert lines[1..] == [line, next] && lines[2..] == [next] && lines[3..] == [];
    assert Run(ParseState([], NoDraft), lines) == Run(first, [line, next]) == Run(grown, [next]);
  }

  // ---------------------------------------------------------------- listing round trip

  /** A field the module prints without commas or quotes. */
  predicate PlainField(s: string) {
    s != [] && ',' !in s && '"' !in s && '\'' !in s
  }

  /** A record the module can list and the parser can read back. */
  predicate Listable(r: Sms, body: seq<string>) {
    && PlainField(r.status) && PlainField(r.phone) && PlainField(r.date) && PlainField(r.time)
    && (forall k :: 0 <= k < |body| ==> body[k] != "" && !IsHeader(body[k]) && '\n' !in body[k])
    && r.body == JoinBody(body)
  }

  /**
   * The header line the module prints for a record, as
   * `+CMGL: <index>,"<status>","<number>",,"<date>,<time>"`: date and time
   * share one quoted field, which the comma splits.
   */
  function HeaderLine(r: Sms): string {
    "+CMGL: " + Join([IntToString(r.index), "\"" + r.status + "\"", "\"" + r.phone + "\"", "",
                      "\"" + r.date, r.time + "\""], ',')
  }

  /** Header lines, each followed by its body lines. */
  function Lines(heads: seq<string>, bodies: seq<seq<string>>): seq<string>
    requires |heads| == |bodies|
    decreases |heads|
  {
    if heads == [] then [] else [heads[0]] + bodies[0] + Lines(heads[1..], bodies[1..])
  }

  /** The listing lines of a sequence of records with their body lines. */
  function Listing(records: seq<Sms>, bodies: seq<seq<string>>): seq<string>
    requires |records| == |bodies|
  {
    Lines(Headers(records), bodies)
  }

  /** The printed header of each record. */
  function Headers(records: seq<Sms>): (heads: seq<string>)
    ensures |heads| == |records|
    ensures forall k :: 0 <= k < |records| ==> heads[k] == HeaderLine(records[k])
  {
    seq(|records|, k requires 0 <= k < |records| => HeaderLine(records[k]))
  }

  /** The six comma-separated fields of a printed header, after its prefix. */
  function HeaderFields(r: Sms): seq<string> {
    [IntToString(r.index), "\"" + r.status + "\"", "\"" + r.phone + "\"", "",
     "\"" + r.date, r.time + "\""]
  }

  lemma HeaderSplits(r: Sms)
    requires PlainField(r.status) && PlainField(r.phone) && PlainField(r.date) && PlainField(r.time)
    ensures IsHeader(HeaderLine(r))
    ensures Split(HeaderLine(r)[7..], ',') == HeaderFields(r)
  {
    var f := HeaderFields(r);
    IntToStringPlain(r.index);
    assert forall k :: 0 <= k < |f| ==> ',' !in f[k];
    SplitJoin(f, ',');
    assert HeaderLine(r)[7..] == Join(f, ',');
  }

  lemma DateTimeUnquoted(r: Sms)
    requires PlainField(r.date) && PlainField(r.time)
    ensures DeleteQuote("\"" + r.date) == r.date
    ensures DeleteQuote(r.time + "\"") == r.time
  {
    var d := "\"" + r.date;
    assert d[1..|d|] == r.date;
    var t := r.time + "\"";
    assert t[0..|t| - 1] == r.time;
  }

  /** A printed header parses back to its record, with an empty body. */
  lemma HeaderRoundTrip(r: Sms)
    requires PlainField(r.status) && PlainField(r.phone) && PlainField(r.date) && PlainField(r.time)
    ensures IsHeader(HeaderLine(r))
    ensures HeaderRecord(HeaderLine(r)) == Some(r.(body := ""))
  {
    HeaderSplits(r);
    IntRoundTrip(r.index);
    DeleteQuoteOfQuoted(r.status);
    DeleteQuoteOfQuoted(r.phone);
    DateTimeUnquoted(r);
  }

  /** A header that parses, followed by body lines, leaves that record as the draft. */
  lemma RecordRun(st: ParseState, head: string, r: Sms, body: seq<string>)
    requires IsHeader(head) && HeaderRecord(head) == Some(r.(body := ""))
    requires forall k :: 0 <= k < |body| ==> body[k] != "" && !IsHeader(body[k])
    requires r.body == JoinBody(body)
    ensures Run(st, [head] + body) == ParseState(Flushed(st), Drafting(r))
  {
    RunAppend(st, [head], body);
    var afterHeader := ParseState(Flushed(st), Drafting(r.(body := "")));
    assert Run(st, [head]) == afterHeader;
    assert JoinBody([]) == "";
    BodyLinesJoined(Flushed(st), r.(body := ""), [], body);
    assert [] + body == body;
  }

  /** Lines the parser takes as body lines: non-empty and not headers. */
  predicate BodyLines(body: seq<string>) {
    forall i :: 0 <= i < |body| ==> body[i] != "" && !IsHeader(body[i])
  }

  /** Every header parses to its record and every body joins to its record's body. */
  predicate Parsable(heads: seq<string>, records: seq<Sms>, bodies: seq<seq<string>>)
    decreases |heads|
  {
    && |heads| == |records| == |bodies|
    && (heads != [] ==>
          && IsHeader(heads[0]) && HeaderRecord(heads[0]) == Some(records[0].(body := ""))
          && BodyLines(bodies[0]) && records[0].body == JoinBody(bodies[0])
          && Parsable(heads[1..], records[1..], bodies[1..]))
  }

  /** Parsing a listing of at least one record leaves the last record as the draft. */
  lemma {:induction false} LinesRun(st: ParseState, heads: seq<string>, records: seq<Sms>, bodies: seq<seq<string>>)
    requires Parsable(heads, records, bodies) && |records| > 0
    ensures Run(st, Lines(heads, bodies)) ==
            ParseState(Flushed(st) + records[..|records| - 1], Drafting(records[|records| - 1]))
    decreases |records|
  {
    var afterBody := ParseState(Flushed(st), Drafting(records[0]));
    var rest := Lines(heads[1..], bodies[1..]);
    LinesStep(st, heads, records, bodies);
    if |records| == 1 {
      assert rest == [];
      assert records[..0] == [];
    } else {
      var tail := records[1..];
      LinesRun(afterBody, heads[1..], tail, bodies[1..]);
      PrefixShift(Flushed(st), records);
    }
  }

  lemma PrefixShift(done: seq<Sms>, s: seq<Sms>)
    requires |s| > 1
    ensures s[1..][|s| - 2] == s[|s| - 1]
    ensures (done + [s[0]]) + s[1..][..|s| - 2] == done + s[..|s| - 1]
  {
    assert [s[0]] + s[1..|s| - 1] == s[..|s| - 1];
  }

  /** The first record of a listing: its header and body leave it as the draft. */
  lemma LinesStep(st: ParseState, heads: seq<string>, records: seq<Sms>, bodies: seq<seq<string>>)
    requires Parsable(heads, records, bodies) && |records| > 0
    ensures Run(st, Lines(heads, bodies)) ==
            Run(ParseState(Flushed(st), Drafting(records[0])), Lines(heads[1..], bodies[1..]))
  {
    var head := [heads[0]] + bodies[0];
    var rest := Lines(heads[1..], bodies[1..]);
    assert Lines(heads, bodies) == head + rest;
    RunAppend(st, head, rest);
    RecordRun(st, heads[0], records[0], bodies[0]);
  }

  /** Printed headers of listable records parse back to those records. */
  lemma {:induction false} ListablePrinted(records: seq<Sms>, bodies: seq<seq<string>>)
    requires |records| == |bodies|
    requires forall k :: 0 <= k < |records| ==> Listable(records[k], bodies[k])
    ensures Parsable(Headers(records), records, bodies)
    decreases |records|
  {
    if records != [] {
      assert Listable(records[0], bodies[0]);
      HeaderRoundTrip(records[0]);
      assert Headers(records)[1..] == Headers(records[1..]);
      ListablePrinted(records[1..], bodies[1..]);
    }
  }

  /** A body joined from non-empty lines without "\n" does not end in "\n". */
  lemma JoinedBodyNoTrailingNewline(lines: seq<string>)
    requires forall k :: 0 <= k < |lines| ==> lines[k] != "" && '\n' !in lines[k]
    ensures var b := JoinBody(lines); |b| == 0 || b[|b| - 1] != '\n'
    decreases |lines|
  {
    if |lines| > 1 {
      JoinedBodyNoTrailingNewline(lines[1..]);
    }
  }

  /**
   * The listing parse recovers every record, in listing order, with index,
   * status, number, date, time and body intact, provided the last record is
   * not an exact copy of an earlier one.
   */
  lemma ListingRoundTrip(records: seq<Sms>, bodies: seq<seq<string>>)
    requires |records| == |bodies|
    requires forall k :: 0 <= k < |records| ==> Listable(records[k], bodies[k])
    requires |records| > 0 ==> records[|records| - 1] !in records[..|records| - 1]
    ensures ParseListing(Listing(records, bodies)) == records
  {
    if |records| > 0 {
      var n := |records|;
      ListablePrinted(records, bodies);
      LinesRun(ParseState([], NoDraft), Headers(records), records, bodies);
      assert Listable(records[n - 1], bodies[n - 1]);
      JoinedBodyNoTrailingNewline(bodies[n - 1]);
      assert TrimNewline(records[n - 1]) == records[n - 1];
      assert [] + records[..n - 1] == records[..n - 1];
      LastSplit(records);
    }
  }

  lemma LastSplit(s: seq<Sms>)
    requires |s| > 0
    ensures s[..|s| - 1] + [s[|s| - 1]] == s
  {
  }

  /**
   * As written, a last record equal to an earlier one is not stored a
   * second time: a listing that repeats a record ends one record short.
   */
  lemma RepeatedLastRecordDropped(r: Sms, body: seq<string>)
    requires Listable(r, body)
    ensures ParseListing(Listing([r, r], [body, body])) == [r]
  {
    ListablePrinted([r, r], [body, body]);
    LinesRun(ParseState([], NoDraft), Headers([r, r]), [r, r], [body, body]);
    assert [r, r][..1] == [r];
  }
}
