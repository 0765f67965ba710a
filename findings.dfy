/**
 * Three places where the driver does not do what it evidently means to,
 * each modelled as written and corrected, with the difference proved.
 */
module Findings {
  import opened Text
  import opened Fields
  import opened Wire
  import opened SmsListing
  import opened Session
  import opened Exchanges

  // ---------------------------------------------------------------- getSMS and an `OK` inside a message

  /** Index of the first `x` in `s`, `|s|` when there is none. */
  function FirstIndex<T(==)>(s: seq<T>, x: T): (j: nat)
    ensures j <= |s|
    ensures j < |s| ==> s[j] == x
    ensures forall k :: 0 <= k < j ==> s[k] != x
    decreases |s|
  {
    if s == [] then 0 else if s[0] == x then 0 else 1 + FirstIndex(s[1..], x)
  }

  /** The first occurrence of an element known to occur. */
  lemma FirstOf<T>(s: seq<T>, x: T) returns (j: nat)
    requires x in s
    ensures j < |s| && s[j] == x && forall k :: 0 <= k < j ==> s[k] != x
  {
    j := FirstIndex(s, x);
  }

  /**
   * As written: when a message holds a line `OK`, the listing stops there,
   * the look-ahead finds the line after it, and the listing command is sent
   * again with the lines gathered so far thrown away; a module with nothing
   * more to say then leaves `getSMS` with no message at all.
   */
  lemma GetSmsOkInBody(p: PortState, t: nat, filter: string, lines: seq<string>, i: nat)
    requires t >= 1
    requires forall k :: 0 <= k < |lines| ==> lines[k] != "" && NoEol(lines[k])
    requires 0 < i < |lines| && lines[i] == Ok && forall k :: 0 <= k < i ==> lines[k] != Ok
    requires p.script == [Frame(lines + [Ok])]
    ensures GetSms(p, t, filter) == ([], PortState("", [], p.sent + ListQueries(filter, 2)))
  {
    var pre, q, extra, q2 := OkInBodySteps(p, t, filter, lines, i);
    RelistedToSilence(p, t, filter, pre, q, extra, q2);
  }

  /** The two rounds of the listing loop when a message holds `OK`, step by step. */
  lemma OkInBodySteps(p: PortState, t: nat, filter: string, lines: seq<string>, i: nat)
      returns (pre: seq<string>, q: PortState, extra: string, q2: PortState)
    requires t >= 1
    requires forall k :: 0 <= k < |lines| ==> lines[k] != "" && NoEol(lines[k])
    requires 0 < i < |lines| && lines[i] == Ok && forall k :: 0 <= k < i ==> lines[k] != Ok
    requires p.script == [Frame(lines + [Ok])]
    ensures FullCmd(p, ListCommand(filter), "", Polls(t, 0), Ok, "") == (pre, q) && pre != []
    ensures NotEmptyLine(q, Polls(t, 0), "", "") == (extra, q2) && extra != ""
    ensures SmsLines(q2, t, filter) == ([], PortState("", [], p.sent + ListQueries(filter, 2)))
  {
    NoCrNoEol(Ok);
    var cmd := ListCommand(filter);
    var rest := (lines + [Ok])[i + 1..];
    ListingUpToOk(p, t, filter, lines, i, []);
    pre := lines[..i];
    q := PortState(Frame(rest), [], p.sent + [CommandLine(cmd)]);
    assert rest[0] == if i + 1 < |lines| then lines[i + 1] else Ok;
    LookAheadRelists(q, t, filter, rest);
    extra, q2 := NotEmptyLine(q, Polls(t, 0), "", "").0, NotEmptyLine(q, Polls(t, 0), "", "").1;
    assert ListQueries(filter, 2) == [CommandLine(cmd), CommandLine(cmd)];
    assert p.sent + ListQueries(filter, 2) == q.sent + [CommandLine(cmd)];
  }

  /**
   * A listing round that gathered lines, followed by a look-ahead that
   * found one, starts the loop over: whatever the next rounds return is
   * the result.
   */
  lemma RelistedToSilence(p: PortState, t: nat, filter: string, pre: seq<string>, q: PortState, extra: string, q2: PortState)
    requires FullCmd(p, ListCommand(filter), "", Polls(t, 0), Ok, "") == (pre, q) && pre != []
    requires NotEmptyLine(q, Polls(t, 0), "", "") == (extra, q2) && extra != ""
    requires SmsLines(q2, t, filter) == ([], PortState("", [], p.sent + ListQueries(filter, 2)))
    ensures GetSms(p, t, filter) == ([], PortState("", [], p.sent + ListQueries(filter, 2)))
  {
  }

  /**
   * The look-ahead of `getSMS` finds the first of the remaining lines, and
   * the listing command sent again meets a module with nothing more to say.
   */
  lemma LookAheadRelists(q: PortState, t: nat, filter: string, rest: seq<string>)
    requires t >= 1
    requires q.script == [] && q.rx == Frame(rest) && rest != [] && rest[0] != "" && NoEol(rest[0])
    ensures var (extra, q2) := NotEmptyLine(q, Polls(t, 0), "", "");
            extra != "" && SmsLines(q2, t, filter) == ([], PortState("", [], q.sent + [CommandLine(ListCommand(filter))]))
  {
    FrameCons(rest, "");
    assert Frame(rest) + "" == Frame(rest);
    NotEmptyLineFramed(q, Polls(t, 0), rest[0], Frame(rest[1..]), "");
    var q2 := q.(rx := Frame(rest[1..]));
    FullCmdSilent(q2, ListCommand(filter), Polls(t, 0), Ok, "");
  }

  /** `n` deliveries of the same chunk. */
  function Repeated(chunk: string, n: nat): (s: seq<string>)
    ensures |s| == n && forall k :: 0 <= k < n ==> s[k] == chunk
  {
    seq(n, k => chunk)
  }

  /**
   * As written, against a module that answers every listing command with
   * the same listing holding an `OK` inside a message: `n` answers cost
   * `n + 1` listing commands and still give no message, so a module that
   * answers every time keeps `getSMS` listing for ever.
   */
  lemma GetSmsRelistsEachAnswer(p: PortState, t: nat, filter: string, lines: seq<string>, i: nat, n: nat)
    requires t >= 1
    requires forall k :: 0 <= k < |lines| ==> lines[k] != "" && NoEol(lines[k])
    requires 0 < i < |lines| && lines[i] == Ok && forall k :: 0 <= k < i ==> lines[k] != Ok
    requires p.script == Repeated(Frame(lines + [Ok]), n)
    ensures GetSms(p, t, filter) == ([], PortState("", [], p.sent + ListQueries(filter, n + 1)))
  {
    SmsLinesRelisted(p, t, filter, lines, i, n);
  }

  lemma {:induction false} SmsLinesRelisted(p: PortState, t: nat, filter: string, lines: seq<string>, i: nat, n: nat)
    requires t >= 1
    requires forall k :: 0 <= k < |lines| ==> lines[k] != "" && NoEol(lines[k])
    requires 0 < i < |lines| && lines[i] == Ok && forall k :: 0 <= k < i ==> lines[k] != Ok
    requires p.script == Repeated(Frame(lines + [Ok]), n)
    ensures SmsLines(p, t, filter) == ([], PortState("", [], p.sent + ListQueries(filter, n + 1)))
    decreases n
  {
    var cmd := CommandLine(ListCommand(filter));
    if n == 0 {
      FullCmdSilent(p, ListCommand(filter), Polls(t, 0), Ok, "");
      assert ListQueries(filter, 1) == [cmd];
    } else {
      var later := Repeated(Frame(lines + [Ok]), n - 1);
      assert p.script == [Frame(lines + [Ok])] + later;
      var q2 := RelistRound(p, t, filter, lines, i, later);
      SmsLinesRelisted(q2, t, filter, lines, i, n - 1);
      assert ListQueries(filter, n + 1) == [cmd] + ListQueries(filter, n);
    }
  }

  /** One round of the listing loop cut at an `OK` inside a message: the loop starts over. */
  lemma RelistRound(p: PortState, t: nat, filter: string, lines: seq<string>, i: nat, later: seq<string>)
      returns (q2: PortState)
    requires t >= 1
    requires forall k :: 0 <= k < |lines| ==> lines[k] != "" && NoEol(lines[k])
    requires 0 < i < |lines| && lines[i] == Ok && forall k :: 0 <= k < i ==> lines[k] != Ok
    requires p.script == [Frame(lines + [Ok])] + later
    ensures q2.script == later && q2.sent == p.sent + [CommandLine(ListCommand(filter))]
    ensures SmsLines(p, t, filter) == SmsLines(q2, t, filter)
  {
    NoCrNoEol(Ok);
    ListingUpToOk(p, t, filter, lines, i, later);
    var rest := (lines + [Ok])[i + 1..];
    var q := PortState(Frame(rest), later, p.sent + [CommandLine(ListCommand(filter))]);
    assert rest[0] == if i + 1 < |lines| then lines[i + 1] else Ok;
    FrameCons(rest, "");
    assert Frame(rest) + "" == Frame(rest);
    NotEmptyLineFramed(q, Polls(t, 0), rest[0], Frame(rest[1..]), "");
    q2 := q.(rx := Frame(rest[1..]));
  }

  /** A sequence is what comes before an element, the element, and what comes after it. */
  lemma SplitAround<T>(s: seq<T>, i: nat)
    requires i < |s|
    ensures s == (s[..i] + [s[i]]) + s[i + 1..]
  {
  }

  /** The frame of a reply split at one of its lines. */
  lemma FrameAround(all: seq<string>, i: nat)
    requires i < |all|
    ensures Frame(all) == Frame(all[..i] + [all[i]]) + Frame(all[i + 1..])
  {
    SplitAround(all, i);
    FrameAppend(all[..i] + [all[i]], all[i + 1..]);
  }

  /** A listing command answered with lines holding an `OK` is collected up to the first `OK`. */
  lemma ListingUpToOk(p: PortState, t: nat, filter: string, lines: seq<string>, i: nat, later: seq<string>)
    requires t >= 1
    requires forall k :: 0 <= k < |lines| ==> lines[k] != "" && NoEol(lines[k])
    requires i <= |lines| && (lines + [Ok])[i] == Ok && forall k :: 0 <= k < i ==> lines[k] != Ok
    requires p.script == [Frame(lines + [Ok])] + later
    ensures FullCmd(p, ListCommand(filter), "", Polls(t, 0), Ok, "") ==
            (lines[..i], PortState(Frame((lines + [Ok])[i + 1..]), later, p.sent + [CommandLine(ListCommand(filter))]))
  {
    NoCrNoEol(Ok);
    var all := lines + [Ok];
    var pre := lines[..i];
    var rest := all[i + 1..];
    forall k | 0 <= k < |pre|
      ensures pre[k] != "" && pre[k] != Ok && NoEol(pre[k])
    {
      assert pre[k] == lines[k];
    }
    assert all[..i] == pre;
    FrameAround(all, i);
    FullCmdReply(p, ListCommand(filter), "", Polls(t, 0), Ok, "", pre, Frame(rest), later);
  }

  /**
   * Corrected gathering: after an `OK` with more lines behind it, keep the
   * `OK` and the line found, and go on collecting without listing again.
   */
  function GatherRest(q: PortState, t: nat, acc: seq<string>): (r: (seq<string>, PortState))
    ensures r.1.sent == q.sent
    ensures Size(r.1) <= Size(q)
    decreases Size(q)
  {
    var (extra, q2) := NotEmptyLine(q, Polls(t, 0), "", "");
    if |extra| > 0 then
      var (more, q3) := Collect(q2, Polls(t, 0), Ok, "", acc + [Ok, extra]);
      GatherRest(q3, t, more)
    else (acc, q2)
  }

  /** The corrected line gathering of `getSMS`: one listing command. */
  function SmsLinesGathered(p: PortState, t: nat, filter: string): (r: (seq<string>, PortState))
    ensures r.1.sent == p.sent + [CommandLine(ListCommand(filter))]
  {
    var (lines, q) := FullCmd(p, ListCommand(filter), "", Polls(t, 0), Ok, "");
    if |lines| > 0 then GatherRest(q, t, lines) else (lines, q)
  }

  /** The corrected `getSMS`. */
  function GetSmsGathered(p: PortState, t: nat, filter: string): (r: (seq<Sms>, PortState))
    ensures r.1.sent == p.sent + [CommandLine(ListCommand(filter))]
  {
    var (lines, q) := SmsLinesGathered(p, t, filter);
    (ParseListing(lines), q)
  }

  /** What is left of a listing after an `OK`: nothing, or lines ending with the final `OK` alone. */
  predicate Remainder(rest: seq<string>) {
    && (forall k :: 0 <= k < |rest| ==> rest[k] != "" && NoEol(rest[k]))
    && (rest != [] ==> |rest| >= 2 && rest[|rest| - 1] == Ok && rest[|rest| - 2] != Ok)
  }

  /** The bookkeeping of one round of `GatherRest`. */
  lemma GatherStep<T>(acc: seq<T>, rest: seq<T>, j: nat, x: T)
    requires |rest| >= 2 && j < |rest| - 1 && rest[1..][j] == x
    ensures var after := rest[1..][j + 1..];
            (acc + [x, rest[0]] + rest[1..][..j]) + (if after == [] then [] else [x] + after[..|after| - 1]) ==
            acc + ([x] + rest[..|rest| - 1])
  {
    var s := rest[1..];
    var after := s[j + 1..];
    if after == [] {
      assert [rest[0]] + s[..j] == rest[..|rest| - 1];
    } else {
      assert s[..j] + [x] + after[..|after| - 1] == s[..|s| - 1];
      assert [rest[0]] + s[..|s| - 1] == rest[..|rest| - 1];
    }
  }

  /** Putting back the element a sequence was split at. */
  lemma Rejoin<T>(lines: seq<T>, i: nat, x: T)
    requires i < |lines| - 1 && lines[i] == x
    ensures var rest := (lines + [x])[i + 1..];
            lines[..i] + ([x] + rest[..|rest| - 1]) == lines
  {
    var rest := (lines + [x])[i + 1..];
    assert rest[..|rest| - 1] == lines[i + 1..];
  }

  /** What follows the first `OK` of a remainder is again a remainder. */
  lemma RemainderAfter(rest: seq<string>, j: nat)
    requires Remainder(rest) && rest != []
    requires j < |rest| - 1 && rest[1..][j] == Ok && forall k :: 0 <= k < j ==> rest[1..][k] != Ok
    ensures Remainder(rest[1..][j + 1..])
  {
    assert rest[1..][j] == rest[j + 1];
  }

  /** Corrected gathering reads the rest of a listing to its final `OK`, keeping every inner `OK`. */
  lemma {:induction false} GatherTail(q: PortState, t: nat, acc: seq<string>, rest: seq<string>)
    requires t >= 1
    requires q.script == [] && q.rx == Frame(rest) && Remainder(rest)
    ensures GatherRest(q, t, acc) == (acc + (if rest == [] then [] else [Ok] + rest[..|rest| - 1]), q.(rx := ""))
    decreases |rest|
  {
    if rest == [] {
      GatherDone(q, t, acc);
      assert acc + [] == acc && q.(rx := "") == q;
    } else {
      var j := GatherRound(q, t, acc, rest);
      var s := rest[1..];
      var after := s[j + 1..];
      var q3 := q.(rx := Frame(after));
      GatherTail(q3, t, acc + [Ok, rest[0]] + s[..j], after);
      GatherChain(GatherRest(q, t, acc), GatherRest(q3, t, acc + [Ok, rest[0]] + s[..j]), q, acc, rest, j, after);
    }
  }

  /** Chaining one round with the gathering after it. */
  lemma GatherChain(first: (seq<string>, PortState), next: (seq<string>, PortState),
                    q: PortState, acc: seq<string>, rest: seq<string>, j: nat, after: seq<string>)
    requires |rest| >= 2 && j < |rest| - 1 && rest[1..][j] == Ok && after == rest[1..][j + 1..]
    requires first == next
    requires next == (acc + [Ok, rest[0]] + rest[1..][..j] + (if after == [] then [] else [Ok] + after[..|after| - 1]),
                      q.(rx := Frame(after)).(rx := ""))
    ensures first == (acc + ([Ok] + rest[..|rest| - 1]), q.(rx := ""))
  {
    GatherStep(acc, rest, j, Ok);
  }

  /** Corrected gathering ends, keeping what it has, once the port stays silent. */
  lemma GatherDone(q: PortState, t: nat, acc: seq<string>)
    requires q.script == [] && q.rx == ""
    ensures GatherRest(q, t, acc) == (acc, q)
  {
    NotEmptyLineSilent(q, Polls(t, 0), "", "");
  }

  /**
   * One round of corrected gathering: the next line and everything up to
   * the next `OK` are kept, and gathering goes on after that `OK`.
   */
  lemma GatherRound(q: PortState, t: nat, acc: seq<string>, rest: seq<string>) returns (j: nat)
    requires t >= 1
    requires q.script == [] && q.rx == Frame(rest) && Remainder(rest) && rest != []
    ensures |rest| >= 2 && j < |rest| - 1 && rest[1..][j] == Ok
    ensures Remainder(rest[1..][j + 1..])
    ensures GatherRest(q, t, acc) ==
            GatherRest(q.(rx := Frame(rest[1..][j + 1..])), t, acc + [Ok, rest[0]] + rest[1..][..j])
  {
    var polls := Polls(t, 0);
    TokenFacts();
    assert q.rx == rest[0] + "\r\n" + Frame(rest[1..]);
    NotEmptyLineFramed(q, polls, rest[0], Frame(rest[1..]), "");
    var s := rest[1..];
    assert s[|s| - 1] == Ok;
    j := FirstOf(s, Ok);
    var after := s[j + 1..];
    SplitAround(s, j);
    FrameAppend(s[..j] + [Ok], after);
    var q2 := q.(rx := Frame(s));
    CollectFramed(q2, polls, Ok, "", acc + [Ok, rest[0]], s[..j], Frame(after));
    RemainderAfter(rest, j);
    GatherUnfold(q, t, acc, rest[0], q2, acc + [Ok, rest[0]] + s[..j], q2.(rx := Frame(after)));
  }

  /** One round of corrected gathering, in terms of what its line wait and its collection return. */
  lemma GatherUnfold(q: PortState, t: nat, acc: seq<string>, line: string, q2: PortState, more: seq<string>, q3: PortState)
    requires NotEmptyLine(q, Polls(t, 0), "", "") == (line, q2) && line != ""
    requires Collect(q2, Polls(t, 0), Ok, "", acc + [Ok, line]) == (more, q3)
    ensures GatherRest(q, t, acc) == GatherRest(q3, t, more)
  {
  }

  /** Where the first `x` splits `lines + [x]` when `lines` neither starts nor ends with `x`. */
  lemma SplitAtFirst<T>(lines: seq<T>, x: T) returns (i: nat)
    requires lines != [] && lines[0] != x && lines[|lines| - 1] != x
    ensures 0 < i <= |lines| && (lines + [x])[i] == x && forall k :: 0 <= k < i ==> lines[k] != x
    ensures var all := lines + [x];
            var rest := all[i + 1..];
            && (rest == [] ==> i == |lines|)
            && (rest != [] ==> i < |lines| - 1 && |rest| >= 2 && rest[|rest| - 1] == x && rest[|rest| - 2] != x)
            && (forall k :: 0 <= k < |rest| - 1 ==> rest[k] == lines[i + 1 + k])
  {
    var all := lines + [x];
    assert all[|lines|] == x;
    i := FirstIndex(all, x);
    assert forall k :: 0 <= k < i ==> all[k] == lines[k];
  }

  /**
   * Corrected: a listing whose first and last lines are not `OK` comes back
   * whole, whatever `OK` lines it holds in between.
   */
  lemma SmsLinesGatheredWhole(p: PortState, t: nat, filter: string, lines: seq<string>)
    requires t >= 1
    requires forall k :: 0 <= k < |lines| ==> lines[k] != "" && NoEol(lines[k])
    requires lines != [] ==> lines[0] != Ok && lines[|lines| - 1] != Ok
    requires p.script == [Frame(lines + [Ok])]
    ensures SmsLinesGathered(p, t, filter) == (lines, PortState("", [], p.sent + [CommandLine(ListCommand(filter))]))
  {
    var pre, q := WholeFirstRound(p, t, filter, lines);
    GatheredFrom(p, t, filter, pre, q, (lines, PortState("", [], p.sent + [CommandLine(ListCommand(filter))])));
  }

  /** The first listing round of a whole listing, and what the corrected gathering makes of the rest. */
  lemma WholeFirstRound(p: PortState, t: nat, filter: string, lines: seq<string>) returns (pre: seq<string>, q: PortState)
    requires t >= 1
    requires forall k :: 0 <= k < |lines| ==> lines[k] != "" && NoEol(lines[k])
    requires lines != [] ==> lines[0] != Ok && lines[|lines| - 1] != Ok
    requires p.script == [Frame(lines + [Ok])]
    ensures FullCmd(p, ListCommand(filter), "", Polls(t, 0), Ok, "") == (pre, q)
    ensures pre == [] ==> (pre, q) == (lines, PortState("", [], p.sent + [CommandLine(ListCommand(filter))]))
    ensures pre != [] ==> GatherRest(q, t, pre) == (lines, PortState("", [], p.sent + [CommandLine(ListCommand(filter))]))
  {
    NoCrNoEol(Ok);
    var cmd := ListCommand(filter);
    var all := lines + [Ok];
    if lines == [] {
      ListingUpToOk(p, t, filter, lines, 0, []);
      assert Frame(all[1..]) == "";
      pre, q := [], PortState("", [], p.sent + [CommandLine(cmd)]);
    } else {
      var i := SplitAtFirst(lines, Ok);
      pre, q := lines[..i], PortState(Frame(all[i + 1..]), [], p.sent + [CommandLine(cmd)]);
      GatherListingRest(q, t, lines, i);
      ListingUpToOk(p, t, filter, lines, i, []);
    }
  }

  /** After the first `OK` of a listing, the corrected gathering brings back the whole listing. */
  lemma GatherListingRest(q: PortState, t: nat, lines: seq<string>, i: nat)
    requires t >= 1
    requires forall k :: 0 <= k < |lines| ==> lines[k] != "" && NoEol(lines[k])
    requires 0 < i <= |lines| && (lines + [Ok])[i] == Ok
    requires var rest := (lines + [Ok])[i + 1..];
             && (rest == [] ==> i == |lines|)
             && (rest != [] ==> i < |lines| - 1 && |rest| >= 2 && rest[|rest| - 1] == Ok && rest[|rest| - 2] != Ok)
             && (forall k :: 0 <= k < |rest| - 1 ==> rest[k] == lines[i + 1 + k])
    requires q.script == [] && q.rx == Frame((lines + [Ok])[i + 1..])
    ensures GatherRest(q, t, lines[..i]) == (lines, q.(rx := ""))
  {
    RemainderOfListing(lines, i);
    GatherTail(q, t, lines[..i], (lines + [Ok])[i + 1..]);
    GatheredWhole(GatherRest(q, t, lines[..i]), lines, i, q.(rx := ""));
  }

  /** The lines before the first `OK`, that `OK` and the lines after it make up the whole listing again. */
  lemma GatheredWhole(r: (seq<string>, PortState), lines: seq<string>, i: nat, last: PortState)
    requires 0 < i <= |lines| && (lines + [Ok])[i] == Ok
    requires var rest := (lines + [Ok])[i + 1..];
             (rest == [] ==> i == |lines|) && (rest != [] ==> i < |lines| - 1)
    requires var rest := (lines + [Ok])[i + 1..];
             r == (lines[..i] + (if rest == [] then [] else [Ok] + rest[..|rest| - 1]), last)
    ensures r == (lines, last)
  {
    var rest := (lines + [Ok])[i + 1..];
    if rest == [] {
      assert lines[..i] + [] == lines;
    } else {
      Rejoin(lines, i, Ok);
    }
  }

  /** What follows the first `OK` of a listing ended by `OK` is a remainder. */
  lemma RemainderOfListing(lines: seq<string>, i: nat)
    requires forall k :: 0 <= k < |lines| ==> lines[k] != "" && NoEol(lines[k])
    requires 0 < i <= |lines| && (lines + [Ok])[i] == Ok
    requires var rest := (lines + [Ok])[i + 1..];
             && (rest == [] ==> i == |lines|)
             && (rest != [] ==> i < |lines| - 1 && |rest| >= 2 && rest[|rest| - 1] == Ok && rest[|rest| - 2] != Ok)
             && (forall k :: 0 <= k < |rest| - 1 ==> rest[k] == lines[i + 1 + k])
    ensures Remainder((lines + [Ok])[i + 1..])
  {
    NoCrNoEol(Ok);
    var rest := (lines + [Ok])[i + 1..];
    forall k | 0 <= k < |rest|
      ensures rest[k] != "" && NoEol(rest[k])
    {
      if k < |rest| - 1 {
        assert rest[k] == lines[i + 1 + k];
      }
    }
  }

  /** The corrected gathering is decided by its first listing round and what follows it. */
  lemma GatheredFrom(p: PortState, t: nat, filter: string, pre: seq<string>, q: PortState, r: (seq<string>, PortState))
    requires FullCmd(p, ListCommand(filter), "", Polls(t, 0), Ok, "") == (pre, q)
    requires pre == [] ==> (pre, q) == r
    requires pre != [] ==> GatherRest(q, t, pre) == r
    ensures SmsLinesGathered(p, t, filter) == r
  {
  }

  /**
   * A message with a line `OK` in its text: the module lists it, the
   * driver as written returns no message, the corrected gathering returns it.
   */
  lemma OkLineInMessage(p: PortState, t: nat, filter: string, r: Sms, line: string)
    requires t >= 1 && line != Ok
    requires Listable(r, [Ok, line]) && Sendable(r, [Ok, line])
    requires p.script == [Frame(Listing([r], [[Ok, line]]) + [Ok])]
    ensures ParseListing(Listing([r], [[Ok, line]])) == [r]
    ensures GetSms(p, t, filter).0 == []
    ensures GetSmsGathered(p, t, filter).0 == [r]
  {
    var lines := Listing([r], [[Ok, line]]);
    assert Headers([r]) == [HeaderLine(r)];
    assert Lines([HeaderLine(r)], [[Ok, line]]) == [HeaderLine(r)] + [Ok, line] + Lines([], []);
    assert lines == [HeaderLine(r), Ok, line];
    HeaderLinePlain(r);
    assert [Ok, line][1] == line;
    NoCrNoEol(line);
    TokenFacts();
    ListingRoundTrip([r], [[Ok, line]]);
    GetSmsOkInBody(p, t, filter, lines, 1);
    SmsLinesGatheredWhole(p, t, filter, lines);
  }

  // ---------------------------------------------------------------- getSignalStrength and raw values past 31

  /**
   * As written: the module reports raw 56, a value the driver accepts, and
   * the driver turns it into -1, its own "not valid" answer.
   */
  lemma SignalSentinelClash(ber: int)
    ensures CsqRaw(CsqLine(56, ber)) == 56
    ensures SignalFromLine(CsqLine(56, ber)) == -1
  {
    SignalOfCsqLine(56, ber);
  }

  /** As written: raw 32 gives -49 dBm, outside the documented range of -113 to -51 dBm. */
  lemma SignalPastDocumentedRange(ber: int)
    ensures SignalFromLine(CsqLine(32, ber)) == -49
  {
    SignalOfCsqLine(32, ber);
  }

  /**
   * Corrected conversion: raw 0 to 31 map onto -113 to -51 dBm, every
   * other raw value (99 = unknown) to -1, so -1 means exactly "no reading".
   */
  function RawToDbmChecked(raw: int): (dbm: int)
    ensures dbm != -1 <==> 0 <= raw <= 31
    ensures dbm != -1 ==> -113 <= dbm <= -51 && dbm % 2 == 1 && raw == (dbm + 113) / 2
  {
    if 0 <= raw <= 31 then 2 * raw - 113 else -1
  }

  /** The corrected `getSignalStrength`: the same exchange, the checked conversion. */
  function SignalStrengthChecked(p: PortState, t: nat): (r: (int, PortState))
    ensures r.1.sent == p.sent + [CommandLine("AT+CSQ")]
    ensures r.0 == -1 || -113 <= r.0 <= -51
  {
    var (line, q) := LineCmd(p, "AT+CSQ", "", Polls(t, 0), "+CSQ: ", Error);
    if line == "" then (-1, q)
    else
      var raw := CsqRaw(line);
      (RawToDbmChecked(raw), if raw != -1 then DrainOk(q, t) else q)
  }

  /** The corrected reading keeps every in-range answer of the driver as written and refuses the rest. */
  lemma SignalCheckedAgrees(p: PortState, t: nat)
    ensures var r := SignalStrength(p, t);
            SignalStrengthChecked(p, t) == (if -113 <= r.0 <= -51 then r.0 else -1, r.1)
  {
  }

  /** Corrected: a `+CSQ` answer reads as dBm exactly when its raw value is in 0 to 31. */
  lemma SignalCheckedAnswered(p: PortState, t: nat, rssi: int, ber: int, later: seq<string>)
    requires t >= 1
    requires p.script == [Frame(["", CsqLine(rssi, ber), "", Ok])] + later
    ensures SignalStrengthChecked(p, t).0 == if 0 <= rssi <= 31 then 2 * rssi - 113 else -1
  {
    SignalStrengthAnswered(p, t, rssi, ber, later);
    SignalCheckedAgrees(p, t);
  }

  // ---------------------------------------------------------------- identification queries and `ERROR`

  /**
   * Corrected single-line match: the error token is recognised before the
   * content, so an `ERROR` line is never taken for the answer.
   */
  function NotEmptyLineErrFirst(p: PortState, polls: nat, content: string, err: string): (r: (string, PortState))
    ensures r.1.sent == p.sent
    ensures err != "" ==> r.0 != err
    decreases polls, |p.rx|
  {
    if polls == 0 then ("", p)
    else if p.rx == "" then NotEmptyLineErrFirst(Tick(p), polls - 1, content, err)
    else
      var (line, rest) := CutLine(p.rx);
      var q := p.(rx := rest);
      if |err| > 0 && err == line then ("", q)
      else if Contains(line, content) && |line| > 0 then (line, q)
      else NotEmptyLineErrFirst(q, polls, content, err)
  }

  /**
   * The corrected match differs from the one as written only where that
   * one returns the error token itself; it then returns "" in the same state.
   */
  lemma {:induction false} ErrFirstAgrees(p: PortState, polls: nat, content: string, err: string)
    ensures var r := NotEmptyLine(p, polls, content, err);
            NotEmptyLineErrFirst(p, polls, content, err) == if err != "" && r.0 == err then ("", r.1) else r
    decreases polls, |p.rx|
  {
    if polls > 0 {
      if p.rx == "" {
        ErrFirstAgrees(Tick(p), polls - 1, content, err);
      } else {
        var (line, rest) := CutLine(p.rx);
        if !(|err| > 0 && err == line) && !(Contains(line, content) && |line| > 0) {
          ErrFirstAgrees(p.(rx := rest), polls, content, err);
        }
      }
    }
  }

  /** The corrected identification query (`AT+CGMI` and the others). */
  function InfoChecked(p: PortState, t: nat, cmd: string): (r: (string, PortState))
    ensures r.1.sent == p.sent + [CommandLine(cmd)]
    ensures r.0 != Error
  {
    var (id, q) := NotEmptyLineErrFirst(FlushAndSend(p, cmd, ""), Polls(t, 0), "", Error);
    if id != "" then (id, DrainOk(q, t)) else (id, q)
  }

  /** Corrected identification answers everything the driver as written does, except `ERROR`, which becomes "". */
  lemma InfoCheckedAgrees(p: PortState, t: nat, cmd: string)
    ensures InfoChecked(p, t, cmd).0 == if Info(p, t, cmd).0 == Error then "" else Info(p, t, cmd).0
    ensures Info(p, t, cmd).0 != Error ==> InfoChecked(p, t, cmd) == Info(p, t, cmd)
  {
    ErrFirstAgrees(FlushAndSend(p, cmd, ""), Polls(t, 0), "", Error);
  }

  /** A module that refuses an identification query: the ID as written is `ERROR`, corrected it is "". */
  lemma InfoErrorReplyCorrected(p: PortState, t: nat, cmd: string, later: seq<string>)
    requires t >= 1
    requires p.script == [Frame([Error])] + later
    ensures Info(p, t, cmd).0 == Error
    ensures InfoChecked(p, t, cmd).0 == ""
  {
    InfoOnErrorReply(p, t, cmd, later);
    InfoCheckedAgrees(p, t, cmd);
  }
}
