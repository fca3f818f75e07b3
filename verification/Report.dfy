/**
 The report lines the driver prints at the end of a run and Kio.parse_results of kio.py,
 which reads them back out of the kernel log.
 */
module Report {
  import opened Common
  import opened Text
  import opened Pattern
  import Stats
  import Rates

  // ---------- printing ----------

  /** The figures common to both kinds of line, from the count to the bandwidth. */
  function Figures(l: Stats.Line): string {
    Dec(l.completed)
    + (" lat=" + ((Dec(l.lat / 1000) + "." + Pad3(l.lat % 1000))
    + ("(" + ((Dec(l.slat / 1000) + "." + Pad3(l.slat % 1000))
    + ("+" + ((Dec(l.clat / 1000) + "." + Pad3(l.clat % 1000))
    + (") iops=" + (Dec(l.iops)
    + (" MB/s=" + (Dec(l.bps / 1000000) + "." + Pad3(l.bps / 1000 % 1000)))))))))))
  }

  function ThreadText(tid: nat, l: Stats.Line): string {
    "kio: " + ("thread[" + (Dec(tid) + ("]: completed=" + Figures(l))))
  }

  function SummaryText(l: Stats.Line): string {
    "kio: " + ("summary: completed=" + Figures(l))
  }

  // ---------- parsing ----------

  const BANDWIDTH: Pattern := Lit(" MB/s=", Group(DigitsAndPoints, End))
  const RATES: Pattern := Lit(") iops=", Group(Digits, BANDWIDTH))
  const COMPLETION: Pattern := Lit("+", Group(DigitsAndPoints, RATES))
  const SUBMISSION: Pattern := Lit("(", Group(DigitsAndPoints, COMPLETION))
  const LATENCY: Pattern := Lit(" lat=", Group(DigitsAndPoints, SUBMISSION))
  const FIGURES: Pattern := Group(Digits, LATENCY)
  const TAIL: Pattern := Lit("]: completed=", FIGURES)
  const THREAD: Pattern := Lit("thread[", Group(Digits, TAIL))
  const SUMMARY: Pattern := Lit("summary: completed=", FIGURES)

  lemma FiguresClasses()
    ensures Classes(FIGURES)
         == [Digits, DigitsAndPoints, DigitsAndPoints, DigitsAndPoints, Digits, DigitsAndPoints]
  {
    assert Classes(BANDWIDTH) == [DigitsAndPoints];
    assert Classes(RATES) == [Digits] + Classes(BANDWIDTH);
    assert Classes(COMPLETION) == [DigitsAndPoints] + Classes(RATES);
    assert Classes(SUBMISSION) == [DigitsAndPoints] + Classes(COMPLETION);
    assert Classes(LATENCY) == [DigitsAndPoints] + Classes(SUBMISSION);
    assert Classes(FIGURES) == [Digits] + Classes(LATENCY);
  }

  /** One entry of the result: latencies in microseconds, bandwidth in megabytes per second. */
  datatype Record = Record(completed: nat, lat: Decimal, slat: Decimal, clat: Decimal, iops: nat, bandwidth: Decimal)

  datatype LineMeaning = Ignored | Malformed | ThreadEntry(tid: nat, record: Record) | SummaryEntry(record: Record)

  /** The record that six captured texts stand for; a number that float() refuses is an error. */
  function ToRecord(caps: seq<string>): Option<Record>
    requires |caps| == 6 && AllDigits(caps[0]) && AllDigits(caps[4])
  {
    Combine(Value(caps[0]), ParseFloat(caps[1]), ParseFloat(caps[2]), ParseFloat(caps[3]), Value(caps[4]), ParseFloat(caps[5]))
  }

  function Combine(completed: nat, lat: Option<Decimal>, slat: Option<Decimal>, clat: Option<Decimal>, iops: nat,
                   bandwidth: Option<Decimal>): Option<Record>
  {
    if lat.Some? && slat.Some? && clat.Some? && bandwidth.Some?
    then Some(Record(completed, lat.value, slat.value, clat.value, iops, bandwidth.value))
    else None
  }

  lemma FiguresCaptures(caps: seq<string>)
    requires Captures(FIGURES, caps)
    ensures |caps| == 6 && AllDigits(caps[0]) && AllDigits(caps[4])
  {
    FiguresClasses();
    CapturesByIndex(FIGURES, caps);
  }

  lemma ThreadCaptures(caps: seq<string>)
    requires Captures(THREAD, caps)
    ensures caps != [] && AllDigits(caps[0]) && Captures(FIGURES, caps[1..])
  {
    assert Captures(Group(Digits, TAIL), caps);
    assert Captures(TAIL, caps[1..]);
  }

  function Meaning(line: string): LineMeaning {
    var thread := Search(THREAD, line);
    if thread.Matched? then
      SearchCaptures(THREAD, line);
      ThreadCaptures(thread.caps);
      FiguresCaptures(thread.caps[1..]);
      var record := ToRecord(thread.caps[1..]);
      if record.Some? then ThreadEntry(Value(thread.caps[0]), record.value) else Malformed
    else
      var summary := Search(SUMMARY, line);
      if summary.Matched? then
        SearchCaptures(SUMMARY, line);
        FiguresCaptures(summary.caps);
        var record := ToRecord(summary.caps);
        if record.Some? then SummaryEntry(record.value) else Malformed
      else Ignored
  }

  lemma {:induction false} SearchCaptures(pat: Pattern, text: string)
    requires Search(pat, text).Matched?
    ensures Captures(pat, Search(pat, text).caps)
    decreases |text|
  {
    if MatchAt(pat, text).Matched? { MatchIsInstance(pat, text); } else { SearchCaptures(pat, text[1..]); }
  }

  datatype Results =
    | Parsed(summary: Record, threads: map<nat, Record>)
    | ValueError

  /** What the loop has gathered; None is the ValueError that float() raises. */
  datatype Gathered = Gathered(summary: Option<Record>, threads: map<nat, Record>)

  function Gather(g: Gathered, m: LineMeaning): Option<Gathered> {
    match m
    case Ignored => Some(g)
    case Malformed => None
    case ThreadEntry(tid, record) => Some(g.(threads := g.threads[tid := record]))
    case SummaryEntry(record) => Some(g.(summary := Some(record)))
  }

  function GatherAll(ms: seq<LineMeaning>): Option<Gathered> {
    if ms == [] then Some(Gathered(None, map[]))
    else
      var g := GatherAll(ms[..|ms| - 1]);
      if g.None? then None else Gather(g.value, ms[|ms| - 1])
  }

  function Conclude(g: Option<Gathered>): Results {
    if g.None? || g.value.summary.None? || g.value.threads == map[] then ValueError
    else Parsed(g.value.summary.value, g.value.threads)
  }

  function Meanings(lines: seq<string>): (ms: seq<LineMeaning>)
    ensures |ms| == |lines|
    ensures forall i | 0 <= i < |lines| :: ms[i] == Meaning(lines[i])
  {
    seq(|lines|, i requires 0 <= i < |lines| => Meaning(lines[i]))
  }

  /** Line i is the last summary, and says the given record. */
  ghost predicate LastSummary(ms: seq<LineMeaning>, i: nat, record: Record) {
    i < |ms| && ms[i] == SummaryEntry(record) && forall j | i < j < |ms| :: !ms[j].SummaryEntry?
  }

  /** Line i is the last entry of the given thread, and says the given record. */
  ghost predicate LastOf(ms: seq<LineMeaning>, tid: nat, i: nat, record: Record) {
    && i < |ms| && ms[i] == ThreadEntry(tid, record)
    && forall j | i < j < |ms| :: !(ms[j].ThreadEntry? && ms[j].tid == tid)
  }

  ghost predicate Mentions(ms: seq<LineMeaning>, tid: nat) {
    exists i | 0 <= i < |ms| :: ms[i].ThreadEntry? && ms[i].tid == tid
  }

  /** The log cannot be parsed: a number is malformed, or there is no summary, or no thread. */
  ghost predicate Unusable(ms: seq<LineMeaning>) {
    || (exists i | 0 <= i < |ms| :: ms[i].Malformed?)
    || (forall i | 0 <= i < |ms| :: !ms[i].SummaryEntry?)
    || (forall i | 0 <= i < |ms| :: !ms[i].ThreadEntry?)
  }

  /** What parsing is for: an error exactly for an unusable log, otherwise the last summary and the last entry of each thread. */
  ghost predicate ReadsAs(ms: seq<LineMeaning>, results: Results) {
    && (results.ValueError? <==> Unusable(ms))
    && (results.Parsed? ==>
          && (exists i: nat :: LastSummary(ms, i, results.summary))
          && (forall tid: nat :: tid in results.threads <==> Mentions(ms, tid))
          && (forall tid: nat | tid in results.threads :: exists i: nat :: LastOf(ms, tid, i, results.threads[tid])))
  }

  method ParseResults(lines: seq<string>) returns (results: Results)
    ensures results == Conclude(GatherAll(Meanings(lines)))
    ensures ReadsAs(Meanings(lines), results)
  {
    results := GatherLines(Meanings(lines));
  }

  /** The loop over the lines, each given by what it means. */
  method GatherLines(ms: seq<LineMeaning>) returns (results: Results)
    ensures results == Conclude(GatherAll(ms))
    ensures ReadsAs(ms, results)
  {
    OutcomeExactly(ms);
    var summary: Option<Record>, threads: map<nat, Record> := None, map[];
    for i := 0 to |ms|
      invariant GatherAll(ms[..i]) == Some(Gathered(summary, threads))
    {
      GatherStep(ms, i);
      match ms[i]
      case Ignored =>
      case Malformed =>
        Refused(ms, i + 1);
        return ValueError;
      case ThreadEntry(tid, record) => threads := threads[tid := record];
      case SummaryEntry(record) => summary := Some(record);
    }
    assert ms[..|ms|] == ms;
    if summary.None? { return ValueError; }
    if |threads| < 1 { return ValueError; }
    results := Parsed(summary.value, threads);
  }

  lemma GatherStep(ms: seq<LineMeaning>, i: nat)
    requires i < |ms|
    ensures GatherAll(ms[..i + 1])
         == if GatherAll(ms[..i]).None? then None else Gather(GatherAll(ms[..i]).value, ms[i])
  {
    assert ms[..i + 1][..i] == ms[..i];
  }

  /** Once a number has been refused the whole log is. */
  lemma {:induction false} Refused(ms: seq<LineMeaning>, i: nat)
    requires i <= |ms| && GatherAll(ms[..i]).None?
    ensures GatherAll(ms).None?
    decreases |ms| - i
  {
    if i < |ms| {
      GatherStep(ms, i);
      Refused(ms, i + 1);
    } else {
      assert ms[..i] == ms;
    }
  }

  // ---------- what is gathered ----------

  /** The summary gathered is the last one, if there is one. */
  ghost predicate SummaryGathered(ms: seq<LineMeaning>, summary: Option<Record>) {
    match summary
    case None => forall i | 0 <= i < |ms| :: !ms[i].SummaryEntry?
    case Some(record) => exists i: nat :: LastSummary(ms, i, record)
  }

  /** The threads gathered are those mentioned, each with its last entry. */
  ghost predicate ThreadsGathered(ms: seq<LineMeaning>, threads: map<nat, Record>) {
    && (forall tid: nat :: tid in threads <==> Mentions(ms, tid))
    && (forall tid: nat | tid in threads :: exists i: nat :: LastOf(ms, tid, i, threads[tid]))
  }

  lemma SummaryMore(ms: seq<LineMeaning>, m: LineMeaning, summary: Option<Record>)
    requires SummaryGathered(ms, summary)
    ensures SummaryGathered(ms + [m], if m.SummaryEntry? then Some(m.record) else summary)
  {
    var all := ms + [m];
    if m.SummaryEntry? {
      assert LastSummary(all, |ms|, m.record);
    } else if summary.Some? {
      var i: nat :| LastSummary(ms, i, summary.value);
      assert LastSummary(all, i, summary.value);
    }
  }

  lemma MentionsMore(ms: seq<LineMeaning>, m: LineMeaning, tid: nat)
    ensures Mentions(ms + [m], tid) <==> Mentions(ms, tid) || (m.ThreadEntry? && m.tid == tid)
  {
    var all := ms + [m];
    if i :| 0 <= i < |ms| && ms[i].ThreadEntry? && ms[i].tid == tid { assert all[i] == ms[i]; }
    if m.ThreadEntry? && m.tid == tid { assert all[|ms|] == m; }
  }

  lemma LastOfMore(ms: seq<LineMeaning>, m: LineMeaning, tid: nat, i: nat, record: Record)
    ensures m == ThreadEntry(tid, record) ==> LastOf(ms + [m], tid, |ms|, record)
    ensures !(m.ThreadEntry? && m.tid == tid) && LastOf(ms, tid, i, record) ==> LastOf(ms + [m], tid, i, record)
  {
  }

  lemma ThreadsMore(ms: seq<LineMeaning>, m: LineMeaning, threads: map<nat, Record>, more: map<nat, Record>)
    requires ThreadsGathered(ms, threads)
    requires more == if m.ThreadEntry? then threads[m.tid := m.record] else threads
    ensures ThreadsGathered(ms + [m], more)
  {
    var all := ms + [m];
    forall tid: nat ensures tid in more <==> Mentions(all, tid) { MentionsMore(ms, m, tid); }
    forall tid: nat | tid in more ensures exists i: nat :: LastOf(all, tid, i, more[tid]) {
      if m.ThreadEntry? && m.tid == tid {
        LastOfMore(ms, m, tid, 0, m.record);
      } else {
        var i: nat :| LastOf(ms, tid, i, threads[tid]);
        LastOfMore(ms, m, tid, i, threads[tid]);
      }
    }
  }

  lemma {:induction false} GatherMeaning(ms: seq<LineMeaning>)
    ensures GatherAll(ms).None? <==> exists i | 0 <= i < |ms| :: ms[i].Malformed?
    ensures GatherAll(ms).Some? ==>
              SummaryGathered(ms, GatherAll(ms).value.summary) && ThreadsGathered(ms, GatherAll(ms).value.threads)
  {
    if ms == [] {
    } else {
      var init, last := ms[..|ms| - 1], ms[|ms| - 1];
      assert ms == init + [last];
      GatherMeaning(init);
      if GatherAll(init).Some? {
        SummaryMore(init, last, GatherAll(init).value.summary);
        var threads := GatherAll(init).value.threads;
        ThreadsMore(init, last, threads, if last.ThreadEntry? then threads[last.tid := last.record] else threads);
      }
    }
  }

  /** The outcome on any lines. */
  lemma OutcomeExactly(ms: seq<LineMeaning>)
    ensures ReadsAs(ms, Conclude(GatherAll(ms)))
  {
    GatherMeaning(ms);
    if GatherAll(ms).Some? {
      var g := GatherAll(ms).value;
      NoThreads(ms, g.threads);
      NoSummary(ms, g.summary);
    }
  }

  lemma NoSummary(ms: seq<LineMeaning>, summary: Option<Record>)
    requires SummaryGathered(ms, summary)
    ensures summary.None? <==> forall i | 0 <= i < |ms| :: !ms[i].SummaryEntry?
  {
    if summary.Some? {
      var i: nat :| LastSummary(ms, i, summary.value);
      assert ms[i].SummaryEntry?;
    }
  }

  lemma NoThreads(ms: seq<LineMeaning>, threads: map<nat, Record>)
    requires ThreadsGathered(ms, threads)
    ensures threads == map[] <==> forall i | 0 <= i < |ms| :: !ms[i].ThreadEntry?
  {
    if i :| 0 <= i < |ms| && ms[i].ThreadEntry? { assert Mentions(ms, ms[i].tid); }
    if tid :| tid in threads { assert Mentions(ms, tid); }
  }

  // ---------- what the patterns are made of ----------

  lemma PatternsDelimited()
    ensures Delimited(THREAD) && Ends(THREAD, []) && Delimited(SUMMARY) && Ends(SUMMARY, [])
  {
    assert Delimited(BANDWIDTH) && Ends(BANDWIDTH, []);
    assert Delimited(RATES) && Ends(RATES, []);
    assert Delimited(COMPLETION) && Ends(COMPLETION, []);
    assert Delimited(SUBMISSION) && Ends(SUBMISSION, []);
    assert Delimited(LATENCY) && Ends(LATENCY, []);
    assert Delimited(FIGURES) && Ends(FIGURES, []);
    assert Delimited(TAIL) && Ends(TAIL, []);
  }

  lemma FiguresLiterals(c: char)
    ensures InSomeLiteral(FIGURES, c)
       <==> c in " lat=" || c in "(" || c in "+" || c in ") iops=" || c in " MB/s="
  {
    assert !InSomeLiteral(Group(DigitsAndPoints, End), c);
    assert InSomeLiteral(BANDWIDTH, c) <==> c in " MB/s=";
    assert InSomeLiteral(RATES, c) <==> c in ") iops=" || InSomeLiteral(BANDWIDTH, c);
    assert InSomeLiteral(COMPLETION, c) <==> c in "+" || InSomeLiteral(RATES, c);
    assert InSomeLiteral(SUBMISSION, c) <==> c in "(" || InSomeLiteral(COMPLETION, c);
    assert InSomeLiteral(LATENCY, c) <==> c in " lat=" || InSomeLiteral(SUBMISSION, c);
  }

  lemma PatternLiterals()
    ensures InSomeLiteral(THREAD, '(') && InSomeLiteral(SUMMARY, '(')
    ensures InSomeLiteral(THREAD, 'h') && !InSomeLiteral(SUMMARY, 'h')
  {
    FiguresLiterals('(');
    FiguresLiterals('h');
    assert '(' in "(";
    assert InSomeLiteral(TAIL, '(');
    assert InSomeLiteral(Group(Digits, TAIL), '(');
    assert "thread["[1] == 'h';
  }

  lemma NoKInPatterns()
    ensures Foreign(THREAD, 'k') && Foreign(SUMMARY, 'k')
  {
    FiguresLiterals('k');
    assert !InSomeLiteral(TAIL, 'k');
    assert !InSomeLiteral(Group(Digits, TAIL), 'k');
  }

  // ---------- the round trip ----------

  /** What a printed line says, as exact numbers. */
  function RecordOf(l: Stats.Line): Record {
    Record(l.completed, Decimal(l.lat, 3), Decimal(l.slat, 3), Decimal(l.clat, 3), l.iops,
           Decimal(Rates.PrintedBandwidth(l.bps), 3))
  }

  function FigureCaps(l: Stats.Line): seq<string> {
    [Dec(l.completed), Fixed(l.lat), Fixed(l.slat), Fixed(l.clat), Dec(l.iops), Fixed(l.bps / 1000)]
  }

  lemma FixedInClass(v: nat)
    ensures Fixed(v) != [] && AllIn(DigitsAndPoints, Fixed(v))
  {
  }

  lemma FigureCapsFit(l: Stats.Line)
    ensures Captures(FIGURES, FigureCaps(l))
  {
    FiguresClasses();
    CapturesByIndex(FIGURES, FigureCaps(l));
    FixedInClass(l.lat);
    FixedInClass(l.slat);
    FixedInClass(l.clat);
    FixedInClass(l.bps / 1000);
  }

  lemma InstanceOfFigures(caps: seq<string>)
    requires Captures(FIGURES, caps) && |caps| == 6
    ensures Instance(FIGURES, caps)
         == caps[0] + (" lat=" + (caps[1] + ("(" + (caps[2] + ("+" + (caps[3] + (") iops=" + (caps[4] + (" MB/s=" + caps[5])))))))))
  {
    var c1, c2, c3, c4, c5 := caps[1..], caps[2..], caps[3..], caps[4..], caps[5..];
    assert c1[1..] == c2 && c2[1..] == c3 && c3[1..] == c4 && c4[1..] == c5 && c5[1..] == [];
    InstanceStep(" lat=", DigitsAndPoints, SUBMISSION, c1);
    InstanceStep("(", DigitsAndPoints, COMPLETION, c2);
    InstanceStep("+", DigitsAndPoints, RATES, c3);
    InstanceStep(") iops=", Digits, BANDWIDTH, c4);
    InstanceStep(" MB/s=", DigitsAndPoints, End, c5);
    assert caps[5] + [] == caps[5];
  }

  lemma InstanceStep(t: string, cls: Class, next: Pattern, caps: seq<string>)
    requires Captures(Lit(t, Group(cls, next)), caps)
    ensures caps != [] && Captures(next, caps[1..])
    ensures Instance(Lit(t, Group(cls, next)), caps) == t + (caps[0] + Instance(next, caps[1..]))
  {
    assert Captures(Group(cls, next), caps);
  }

  lemma FiguresAreInstance(l: Stats.Line)
    ensures Captures(FIGURES, FigureCaps(l)) && Figures(l) == Instance(FIGURES, FigureCaps(l))
  {
    FigureCapsFit(l);
    InstanceOfFigures(FigureCaps(l));
    assert l.bps / 1000 / 1000 == l.bps / 1000000;
  }

  lemma FiguresRead(l: Stats.Line)
    ensures ToRecord(FigureCaps(l)) == Some(RecordOf(l))
  {
    DecRoundTrip(l.completed);
    DecRoundTrip(l.iops);
    FixedRoundTrip(l.lat);
    FixedRoundTrip(l.slat);
    FixedRoundTrip(l.clat);
    FixedRoundTrip(l.bps / 1000);
    Rates.PrintedIsThousandths(l.bps);
  }

  /** A text in which neither pattern is found: a timestamp, say, or a foreign line. */
  predicate Silent(text: string) { Search(THREAD, text).NoMatch? && Search(SUMMARY, text).NoMatch? }

  /**
   A message of the driver behind any prefix: its 'k' is in neither pattern, so no match
   crosses it, and the parser sees what the prefix means, or else what the message means.
   */
  lemma MessageSplits(prefix: string, message: string)
    requires message != [] && message[0] == 'k'
    ensures Meaning(prefix + message)
         == if Search(THREAD, prefix).Matched? || (Search(SUMMARY, prefix).Matched? && Search(THREAD, message).NoMatch?)
            then Meaning(prefix) else Meaning(message)
  {
    NoKInPatterns();
    SearchSplits(THREAD, prefix, message);
    SearchSplits(SUMMARY, prefix, message);
  }

  /** A pattern that starts with a literal finds its instance behind a prefix that lacks its first character. */
  lemma FoundBehind(pat: Pattern, prefix: string, caps: seq<string>)
    requires pat.Lit? && pat.text != [] && pat.text[0] !in prefix
    requires Delimited(pat) && Ends(pat, []) && Captures(pat, caps)
    ensures Search(pat, prefix + Instance(pat, caps)) == Matched(caps, [])
  {
    SearchSkips(pat, prefix, Instance(pat, caps));
    assert Instance(pat, caps) == Instance(pat, caps) + [];
    InstanceIsMatched(pat, caps, Instance(pat, caps), []);
  }

  lemma ThreadTextIsInstance(tid: nat, l: Stats.Line)
    ensures var caps := [Dec(tid)] + FigureCaps(l);
            Captures(THREAD, caps) && ThreadText(tid, l) == "kio: " + Instance(THREAD, caps)
  {
    var caps := [Dec(tid)] + FigureCaps(l);
    FiguresAreInstance(l);
    assert caps[1..] == FigureCaps(l);
    assert Captures(TAIL, caps[1..]);
    assert Captures(Group(Digits, TAIL), caps);
    assert Instance(TAIL, caps[1..]) == "]: completed=" + Figures(l);
    assert Instance(Group(Digits, TAIL), caps) == Dec(tid) + Instance(TAIL, caps[1..]);
  }

  lemma ThreadTextRead(tid: nat, l: Stats.Line)
    ensures Search(THREAD, ThreadText(tid, l)).Matched?
    ensures Meaning(ThreadText(tid, l)) == ThreadEntry(tid, RecordOf(l))
  {
    var caps := [Dec(tid)] + FigureCaps(l);
    ThreadTextIsInstance(tid, l);
    PatternsDelimited();
    FoundBehind(THREAD, "kio: ", caps);
    assert caps[1..] == FigureCaps(l);
    FiguresRead(l);
    DecRoundTrip(tid);
  }

  /** Behind any prefix, a thread's line reads back as printed unless the prefix itself holds a thread's line. */
  lemma ThreadLineRead(prefix: string, tid: nat, l: Stats.Line)
    ensures Meaning(prefix + ThreadText(tid, l))
         == if Search(THREAD, prefix).Matched? then Meaning(prefix) else ThreadEntry(tid, RecordOf(l))
  {
    MessageSplits(prefix, ThreadText(tid, l));
    ThreadTextRead(tid, l);
  }

  lemma SummaryTextIsInstance(l: Stats.Line)
    ensures Captures(SUMMARY, FigureCaps(l))
    ensures SummaryText(l) == "kio: " + Instance(SUMMARY, FigureCaps(l))
  {
    FiguresAreInstance(l);
    LiteralFirst("summary: completed=", FIGURES, FigureCaps(l));
  }

  lemma LiteralFirst(t: string, next: Pattern, caps: seq<string>)
    requires Captures(next, caps)
    ensures Captures(Lit(t, next), caps) && Instance(Lit(t, next), caps) == t + Instance(next, caps)
  {
  }

  /** A summary line is not taken for a thread's. */
  lemma SummaryIsNoThread(l: Stats.Line)
    ensures Search(THREAD, SummaryText(l)).NoMatch?
  {
    SummaryTextIsInstance(l);
    PatternLiterals();
    ForeignCharacter(SUMMARY, FigureCaps(l), 'h');
    assert 'h' !in "kio: ";
    SearchFailsWithout(THREAD, SummaryText(l), 'h');
  }

  lemma SummaryTextRead(l: Stats.Line)
    ensures Meaning(SummaryText(l)) == SummaryEntry(RecordOf(l))
  {
    SummaryIsNoThread(l);
    SummaryTextIsInstance(l);
    PatternsDelimited();
    FoundBehind(SUMMARY, "kio: ", FigureCaps(l));
    FiguresRead(l);
  }

  /** Behind any prefix, a summary reads back as printed unless the prefix itself holds a report line. */
  lemma SummaryLineRead(prefix: string, l: Stats.Line)
    ensures Meaning(prefix + SummaryText(l)) == if Silent(prefix) then SummaryEntry(RecordOf(l)) else Meaning(prefix)
  {
    MessageSplits(prefix, SummaryText(l));
    SummaryIsNoThread(l);
    SummaryTextRead(l);
  }

  /** A line is passed over exactly when neither pattern is found in it. */
  lemma IgnoredExactly(text: string)
    ensures Meaning(text) == Ignored <==> Silent(text)
  {
  }

  /** In particular any line without an opening parenthesis is passed over. */
  lemma OtherLineIgnored(text: string)
    requires '(' !in text
    ensures Silent(text)
  {
    PatternLiterals();
    SearchFailsWithout(THREAD, text, '(');
    SearchFailsWithout(SUMMARY, text, '(');
  }

  /** So is any line that nowhere says "completed=", whatever else is in it. */
  lemma UncountedLineIgnored(text: string)
    requires !Contains(text, "completed=")
    ensures Silent(text)
  {
    CompletedLiterals();
    SearchFailsWithoutPart(THREAD, text, "]: ", "completed=");
    SearchFailsWithoutPart(SUMMARY, text, "summary: ", "completed=");
  }

  lemma CompletedLiterals()
    ensures HasLiteral(THREAD, "]: " + "completed=") && HasLiteral(SUMMARY, "summary: " + "completed=")
  {
    assert "]: " + "completed=" == "]: completed=";
    assert "summary: " + "completed=" == "summary: completed=";
    assert HasLiteral(TAIL, "]: completed=");
    assert HasLiteral(Group(Digits, TAIL), "]: completed=");
  }

  // ---------- whole logs ----------

  /** An entry of the kernel log: a thread's line, a summary, or a line of anybody else. */
  datatype Entry =
    | ThreadReport(prefix: string, tid: nat, line: Stats.Line)
    | SummaryReport(prefix: string, line: Stats.Line)
    | Other(text: string)

  /** What stands in front of a report line, and a foreign line, is not itself taken for a report line. */
  predicate WellFormed(e: Entry) {
    match e
    case ThreadReport(prefix, _, _) => Search(THREAD, prefix).NoMatch?
    case SummaryReport(prefix, _) => Silent(prefix)
    case Other(text) => Silent(text)
  }

  function Render(e: Entry): string {
    match e
    case ThreadReport(prefix, tid, line) => prefix + ThreadText(tid, line)
    case SummaryReport(prefix, line) => prefix + SummaryText(line)
    case Other(text) => text
  }

  function RenderAll(log: seq<Entry>): (lines: seq<string>)
    ensures |lines| == |log| && forall i | 0 <= i < |log| :: lines[i] == Render(log[i])
  {
    seq(|log|, i requires 0 <= i < |log| => Render(log[i]))
  }

  /** The summary and the threads that the log reports, later lines replacing earlier ones. */
  function Reported(log: seq<Entry>): Gathered {
    if log == [] then Gathered(None, map[])
    else
      var g := Reported(log[..|log| - 1]);
      match log[|log| - 1]
      case ThreadReport(_, tid, line) => g.(threads := g.threads[tid := RecordOf(line)])
      case SummaryReport(_, line) => g.(summary := Some(RecordOf(line)))
      case Other(_) => g
  }

  function Said(e: Entry): LineMeaning {
    match e
    case ThreadReport(_, tid, line) => ThreadEntry(tid, RecordOf(line))
    case SummaryReport(_, line) => SummaryEntry(RecordOf(line))
    case Other(_) => Ignored
  }

  lemma EntryRead(e: Entry)
    requires WellFormed(e)
    ensures Meaning(Render(e)) == Said(e)
  {
    match e
    case ThreadReport(prefix, tid, line) => ThreadLineRead(prefix, tid, line);
    case SummaryReport(prefix, line) => SummaryLineRead(prefix, line);
    case Other(_) =>
  }

  lemma {:induction false} GatheredIsReported(log: seq<Entry>, ms: seq<LineMeaning>)
    requires |ms| == |log| && forall i | 0 <= i < |log| :: ms[i] == Said(log[i])
    ensures GatherAll(ms) == Some(Reported(log))
  {
    if log == [] {
    } else {
      GatheredIsReported(log[..|log| - 1], ms[..|ms| - 1]);
    }
  }

  lemma ReportedIsRead(log: seq<Entry>)
    requires forall i | 0 <= i < |log| :: WellFormed(log[i])
    ensures forall i | 0 <= i < |log| :: Meanings(RenderAll(log))[i] == Said(log[i])
    ensures Conclude(GatherAll(Meanings(RenderAll(log)))) == Conclude(Some(Reported(log)))
  {
    var ms := Meanings(RenderAll(log));
    forall i | 0 <= i < |log| ensures ms[i] == Said(log[i]) {
      EntryRead(log[i]);
    }
    GatheredIsReported(log, ms);
  }

  ghost function Tids(log: seq<Entry>): set<nat> {
    set i | 0 <= i < |log| && log[i].ThreadReport? :: log[i].tid
  }

  ghost predicate HasSummary(log: seq<Entry>) { exists i | 0 <= i < |log| :: log[i].SummaryReport? }

  ghost predicate SummaryIn(log: seq<Entry>, i: nat, record: Record) {
    && i < |log| && log[i].SummaryReport? && record == RecordOf(log[i].line)
    && forall j | i < j < |log| :: !log[j].SummaryReport?
  }

  ghost predicate ThreadIn(log: seq<Entry>, tid: nat, i: nat, record: Record) {
    && i < |log| && log[i].ThreadReport? && log[i].tid == tid && record == RecordOf(log[i].line)
    && forall j | i < j < |log| :: !(log[j].ThreadReport? && log[j].tid == tid)
  }

  /** What is read from a log: the last summary printed and the last line printed for each thread. */
  ghost predicate ReadFrom(log: seq<Entry>, results: Results) {
    && (results.ValueError? <==> !HasSummary(log) || Tids(log) == {})
    && (results.Parsed? ==>
          && (exists i: nat :: SummaryIn(log, i, results.summary))
          && (forall tid: nat :: tid in results.threads <==> tid in Tids(log))
          && (forall tid: nat | tid in results.threads :: exists i: nat :: ThreadIn(log, tid, i, results.threads[tid])))
  }

  /**
   The round trip: parsing what was printed, with any prefixes and any other lines in between,
   fails exactly on a log without a summary or without a thread, and otherwise returns the
   values of the last summary and of the last line of each thread.
   */
  lemma ReportRoundTrip(log: seq<Entry>)
    requires forall i | 0 <= i < |log| :: WellFormed(log[i])
    ensures ReadFrom(log, Conclude(GatherAll(Meanings(RenderAll(log)))))
  {
    var ms := Meanings(RenderAll(log));
    ReportedIsRead(log);
    OutcomeExactly(ms);
    ReadsWhatIsSaid(log, ms, Conclude(GatherAll(ms)));
  }

  lemma SaidMentions(log: seq<Entry>, ms: seq<LineMeaning>, tid: nat)
    requires |ms| == |log| && forall i | 0 <= i < |log| :: ms[i] == Said(log[i])
    ensures Mentions(ms, tid) <==> tid in Tids(log)
  {
    if i :| 0 <= i < |ms| && ms[i].ThreadEntry? && ms[i].tid == tid { assert log[i].ThreadReport? && log[i].tid == tid; }
    if i :| 0 <= i < |log| && log[i].ThreadReport? && log[i].tid == tid { assert ms[i].ThreadEntry? && ms[i].tid == tid; }
  }

  lemma SaidUnusable(log: seq<Entry>, ms: seq<LineMeaning>)
    requires |ms| == |log| && forall i | 0 <= i < |log| :: ms[i] == Said(log[i])
    ensures Unusable(ms) <==> !HasSummary(log) || Tids(log) == {}
  {
    if HasSummary(log) {
      var i :| 0 <= i < |log| && log[i].SummaryReport?;
      assert ms[i].SummaryEntry?;
    }
    if tid :| tid in Tids(log) { SaidMentions(log, ms, tid); }
    if i :| 0 <= i < |ms| && ms[i].ThreadEntry? { assert log[i].tid in Tids(log); }
  }

  lemma ReadsWhatIsSaid(log: seq<Entry>, ms: seq<LineMeaning>, results: Results)
    requires |ms| == |log| && forall i | 0 <= i < |log| :: ms[i] == Said(log[i])
    requires ReadsAs(ms, results)
    ensures ReadFrom(log, results)
  {
    SaidUnusable(log, ms);
    if results.Parsed? {
      var i: nat :| LastSummary(ms, i, results.summary);
      assert SummaryIn(log, i, results.summary);
      forall tid: nat ensures tid in results.threads <==> tid in Tids(log) { SaidMentions(log, ms, tid); }
      forall tid: nat | tid in results.threads ensures exists j: nat :: ThreadIn(log, tid, j, results.threads[tid]) {
        var j: nat :| LastOf(ms, tid, j, results.threads[tid]);
        assert ThreadIn(log, tid, j, results.threads[tid]);
      }
    }
  }

  /** A log of one run: whatever it says of a thread is that thread's line, and every summary is the run's. */
  ghost predicate LogOf(log: seq<Entry>, lines: seq<Stats.Line>, summary: Stats.Line) {
    forall i | 0 <= i < |log| ::
      && WellFormed(log[i])
      && (log[i].ThreadReport? ==> log[i].tid < |lines| && log[i].line == lines[log[i].tid])
      && (log[i].SummaryReport? ==> log[i].line == summary)
  }

  lemma {:induction false} ReportedByRun(log: seq<Entry>, lines: seq<Stats.Line>, summary: Stats.Line)
    requires LogOf(log, lines, summary)
    ensures Reported(log).threads.Keys == Tids(log)
    ensures forall t | t in Reported(log).threads :: t < |lines| && Reported(log).threads[t] == RecordOf(lines[t])
    ensures Reported(log).summary == if HasSummary(log) then Some(RecordOf(summary)) else None
  {
    if log == [] {
    } else {
      var n := |log| - 1;
      var init, last := log[..n], log[n];
      ReportedByRun(init, lines, summary);
      assert Tids(log) == Tids(init) + if last.ThreadReport? then {last.tid} else {};
      assert HasSummary(log) <==> HasSummary(init) || last.SummaryReport? by {
        if i :| 0 <= i < |init| && init[i].SummaryReport? { assert log[i].SummaryReport?; }
      }
    }
  }

  function RecordsOf(lines: seq<Stats.Line>): map<nat, Record> {
    map t: nat | t < |lines| :: RecordOf(lines[t])
  }

  lemma ReportedInFull(log: seq<Entry>, lines: seq<Stats.Line>, summary: Stats.Line)
    requires LogOf(log, lines, summary) && HasSummary(log)
    requires forall t: nat | t < |lines| :: t in Tids(log)
    ensures Reported(log) == Gathered(Some(RecordOf(summary)), RecordsOf(lines))
  {
    ReportedByRun(log, lines, summary);
    var threads := Reported(log).threads;
    assert forall t: nat :: t in threads <==> t < |lines|;
  }

  /** A complete log of a run reads back as that run: one entry per thread, and its summary. */
  lemma RunReadBack(log: seq<Entry>, lines: seq<Stats.Line>, summary: Stats.Line)
    requires LogOf(log, lines, summary) && HasSummary(log)
    requires lines != [] && forall t: nat | t < |lines| :: t in Tids(log)
    ensures Conclude(GatherAll(Meanings(RenderAll(log)))) == Parsed(RecordOf(summary), RecordsOf(lines))
  {
    ReportedIsRead(log);
    ReportedInFull(log, lines, summary);
    assert 0 in RecordsOf(lines);
  }

  // ---------- the driver's status lines ----------

  function Signed(n: int): string { if n < 0 then "-" + Dec(-n) else Dec(n) }

  datatype Status =
    | Setup(threads: nat, seconds: nat)
    | Started(tid: nat)
    | Finished(tid: nat, completed: int, result: int)
    | Unfinished(tid: nat, pending: nat, completed: int, result: int)
    | Stopped(result: int)

  function OfThread(tid: nat, what: string): string { "kio: thread[" + Dec(tid) + "]: " + what }

  function Ending(completed: int, result: int): string {
    ", completed=" + Signed(completed) + ", result=" + Signed(result)
  }

  function SetupText(threads: nat, seconds: nat): string {
    "kio: setup for " + Dec(threads) + " threads, " + Dec(seconds) + " seconds"
  }

  function StatusText(s: Status): string {
    match s
    case Setup(threads, seconds) => SetupText(threads, seconds)
    case Started(tid) => OfThread(tid, "start")
    case Finished(tid, completed, result) => OfThread(tid, "done" + Ending(completed, result))
    case Unfinished(tid, pending, completed, result) =>
      OfThread(tid, Dec(pending) + " pending requests" + Ending(completed, result))
    case Stopped(result) => "kio: stopped threads, result=" + Signed(result)
  }

  predicate NoParenthesis(s: string) { '(' !in s }

  lemma NumbersPlain(n: nat, i: int)
    ensures NoParenthesis(Dec(n)) && NoParenthesis(Signed(i))
  {
  }

  lemma OfThreadPlain(tid: nat, what: string)
    requires NoParenthesis(what)
    ensures NoParenthesis(OfThread(tid, what))
  {
    NumbersPlain(tid, 0);
  }

  lemma EndingPlain(completed: int, result: int)
    ensures NoParenthesis(Ending(completed, result))
  {
    NumbersPlain(0, completed);
    NumbersPlain(0, result);
  }

  lemma SetupPlain(threads: nat, seconds: nat)
    ensures NoParenthesis(SetupText(threads, seconds))
  {
    NumbersPlain(threads, 0);
    NumbersPlain(seconds, 0);
  }

  lemma StatusPlain(s: Status)
    ensures NoParenthesis(StatusText(s))
  {
    match s
    case Setup(threads, seconds) => SetupPlain(threads, seconds);
    case Started(tid) => OfThreadPlain(tid, "start");
    case Finished(tid, completed, result) =>
      EndingPlain(completed, result);
      OfThreadPlain(tid, "done" + Ending(completed, result));
    case Unfinished(tid, pending, completed, result) =>
      EndingPlain(completed, result);
      NumbersPlain(pending, 0);
      OfThreadPlain(tid, Dec(pending) + " pending requests" + Ending(completed, result));
    case Stopped(result) => NumbersPlain(0, result);
  }

  lemma StatusStarts(s: Status)
    ensures StatusText(s) != [] && StatusText(s)[0] == 'k'
  {
  }

  /** The status lines a run prints add nothing to their prefix, although some start like a thread's line. */
  lemma StatusIgnored(prefix: string, s: Status)
    ensures Meaning(prefix + StatusText(s)) == Meaning(prefix)
  {
    StatusPlain(s);
    StatusStarts(s);
    OtherLineIgnored(StatusText(s));
    MessageSplits(prefix, StatusText(s));
  }

  // ---------- the format ----------

  const SAMPLE: Stats.Line := Stats.Line(2000, 400, 600, 1000, 500, 4096000)

  lemma SampleNumbers()
    ensures Dec(2000) == "2000" && Dec(500) == "500" && Dec(3) == "3" && Dec(0) == "0" && Dec(1) == "1" && Dec(4) == "4"
    ensures Pad3(0) == "000" && Pad3(400) == "400" && Pad3(600) == "600" && Pad3(96) == "096"
  {
    assert Dec(20) == "20" && Dec(200) == "200" && Dec(5) == "5" && Dec(50) == "50" && Dec(2) == "2";
  }

  lemma SampleDecimals()
    ensures "4" + "." + "096" == "4.096" && "1" + "." + "000" == "1.000"
    ensures "0" + "." + "400" == "0.400" && "0" + "." + "600" == "0.600"
  {
  }

  lemma SampleEnd()
    ensures "+" + ("0.600" + (") iops=" + ("500" + (" MB/s=" + "4.096")))) == "+0.600) iops=500 MB/s=4.096"
  {
  }

  lemma SampleStart()
    ensures "2000" + (" lat=" + ("1.000" + ("(" + ("0.400" + "+0.600) iops=500 MB/s=4.096"))))
         == "2000 lat=1.000(0.400+0.600) iops=500 MB/s=4.096"
  {
  }

  lemma SampleFigures()
    ensures Figures(SAMPLE) == "2000 lat=1.000(0.400+0.600) iops=500 MB/s=4.096"
  {
    SampleNumbers();
    SampleDecimals();
    SampleEnd();
    SampleStart();
  }

  lemma Heads(figures: string)
    ensures "kio: " + ("thread[" + ("3" + ("]: completed=" + figures))) == "kio: thread[3]: completed=" + figures
    ensures "kio: " + ("summary: completed=" + figures) == "kio: summary: completed=" + figures
  {
  }

  /** The printed lines themselves, for 2000 I/Os of 0.4 and 0.6 microseconds at 500 a second and 4.096 megabytes a second. */
  lemma PrintedLines()
    ensures ThreadText(3, SAMPLE) == "kio: thread[3]: completed=" + "2000 lat=1.000(0.400+0.600) iops=500 MB/s=4.096"
    ensures SummaryText(SAMPLE) == "kio: summary: completed=" + "2000 lat=1.000(0.400+0.600) iops=500 MB/s=4.096"
  {
    SampleNumbers();
    SampleFigures();
    Heads(Figures(SAMPLE));
  }

  /** A summary that is left alone in the log, since the lines of the threads have been overwritten, cannot be parsed. */
  lemma LoneSummary(l: Stats.Line)
    ensures Conclude(GatherAll(Meanings([SummaryText(l)]))) == ValueError
  {
    SummaryTextRead(l);
    OutcomeExactly(Meanings([SummaryText(l)]));
  }
}
