/** `core/log_manager.py`: reading a user's test logs back newest first, rendering one log as
    markdown, and the score history. The log directory is given as a listing of date
    directories with the files inside them; a file's content is `None` when it cannot be read. */
module LogManager {
  import opened Wrappers
  import opened Text
  import opened JsonData
  import Ordering
  import Sequences
  import Evaluator

  // ---------------------------------------------------------------- the directory listing

  /** A file inside a date directory. */
  datatype LogFile = LogFile(name: string, content: Option<string>)

  /** An entry of the log directory; only directories hold files that are read. */
  datatype DateEntry = DateEntry(name: string, isDir: bool, files: seq<LogFile>)

  function DateName(d: DateEntry): string { d.name }

  function FileName(f: LogFile): string { f.name }

  /** The names `glob("test_*.json")` matches. */
  predicate IsLogName(name: string) {
    |name| >= 10 && name[..5] == "test_" && name[|name| - 5..] == ".json"
  }

  /** The files of a date directory that the glob yields, in listing order. */
  function LogFiles(files: seq<LogFile>): (r: seq<LogFile>)
    ensures forall f :: f in r <==> f in files && IsLogName(f.name)
  {
    if |files| == 0 then []
    else
      var rest := LogFiles(files[1..]);
      assert forall f :: f in files <==> f == files[0] || f in files[1..];
      (if IsLogName(files[0].name) then [files[0]] else []) + rest
  }

  /** A file that will be read, together with the date directory holding it. */
  datatype Source = Source(date: DateEntry, file: LogFile)

  /** The sources of one date directory, given its files already in reading order. */
  function Tag(d: DateEntry, files: seq<LogFile>): (r: seq<Source>)
    ensures |r| == |files|
    ensures forall k | 0 <= k < |r| :: r[k] == Source(d, files[k])
  {
    if |files| == 0 then [] else [Source(d, files[0])] + Tag(d, files[1..])
  }

  /** The inner loop's order: the matching files, names descending. */
  function DateSources(d: DateEntry): seq<Source> {
    Tag(d, Ordering.SortBy(LogFiles(d.files), FileName, true))
  }

  /** The outer loop over date entries in the given order, skipping non-directories. */
  function Sources(dates: seq<DateEntry>): (r: seq<Source>)
    ensures forall s | s in r :: s.date in dates && s.date.isDir && s.file in s.date.files
                                && IsLogName(s.file.name)
  {
    if |dates| == 0 then []
    else
      var head := if dates[0].isDir then DateSources(dates[0]) else [];
      DateSourcesFrom(dates[0]);
      head + Sources(dates[1..])
  }

  lemma DateSourcesFrom(d: DateEntry)
    ensures forall s | s in DateSources(d) :: s.date == d && s.file in d.files && IsLogName(s.file.name)
  {
    var sorted := Ordering.SortBy(LogFiles(d.files), FileName, true);
    forall s | s in DateSources(d)
      ensures s.date == d && s.file in d.files && IsLogName(s.file.name)
    {
      var k :| 0 <= k < |sorted| && DateSources(d)[k] == s;
      assert sorted[k] in multiset(sorted);
    }
  }

  /** Every file the scan will try, in order: date directories by name descending, then
      their matching files by name descending. */
  function Candidates(entries: seq<DateEntry>): seq<Source> {
    Sources(Ordering.SortBy(entries, DateName, true))
  }

  /** `str(log_file)` below the log directory `logDir`. */
  function PathOf(logDir: string, s: Source): string {
    logDir + "/" + s.date.name + "/" + s.file.name
  }

  /** One turn of the inner loop: read, decode, and set `file_path`. Anything raised inside
      the `try` (an unreadable file, a decoding error, item assignment on a value that is not
      a dict) skips the file. */
  function ReadLog(logDir: string, s: Source, parse: string -> Option<Json>): (r: Option<Json>)
    ensures r.Some? ==> r.value.JObject?
                        && Lookup(r.value.fields, "file_path") == Some(JStr(PathOf(logDir, s)))
  {
    match s.file.content
    case None => None
    case Some(text) =>
      match parse(text)
      case Some(JObject(fields)) => Some(JObject(Assign(fields, "file_path", JStr(PathOf(logDir, s)))))
      case _ => None
  }

  /** The records read from `sources`, in order, skipping the ones that fail. */
  function ReadAll(logDir: string, sources: seq<Source>, parse: string -> Option<Json>): (r: seq<Json>)
    ensures |r| <= |sources|
    ensures forall k | 0 <= k < |r| :: r[k].JObject? && Has(r[k], "file_path")
  {
    if |sources| == 0 then []
    else
      var rest := ReadAll(logDir, sources[1..], parse);
      match ReadLog(logDir, sources[0], parse)
      case None => rest
      case Some(j) => [j] + rest
  }

  /** `get_user_logs`: no logs when the log directory is missing. */
  function UserLogs(logDir: string, listing: Option<seq<DateEntry>>, parse: string -> Option<Json>)
    : (r: seq<Json>)
    ensures listing.None? ==> r == []
    ensures forall k | 0 <= k < |r| :: r[k].JObject? && Has(r[k], "file_path")
  {
    match listing
    case None => []
    case Some(entries) => ReadAll(logDir, Candidates(entries), parse)
  }

  // ---------------------------------------------------------------- which files, in which order

  /** Source `a` may be read before source `b`: a later date first, and within one date a
      later file name first. */
  predicate ReadBefore(a: Source, b: Source) {
    Ordering.StrLe(b.date.name, a.date.name)
    && (a.date.name == b.date.name ==> Ordering.StrLe(b.file.name, a.file.name))
  }

  predicate NewestFirst(sources: seq<Source>) {
    forall i, j | 0 <= i < j < |sources| :: ReadBefore(sources[i], sources[j])
  }

  /** Every candidate is a matching file of a date directory of the listing. */
  lemma CandidatesAreLogFiles(entries: seq<DateEntry>, s: Source)
    requires s in Candidates(entries)
    ensures s.date in entries && s.date.isDir && s.file in s.date.files && IsLogName(s.file.name)
  {
    var sorted := Ordering.SortBy(entries, DateName, true);
    assert s.date in sorted;
    assert s.date in multiset(sorted);
  }

  /** Every matching file of every date directory is a candidate. */
  lemma EveryLogFileConsidered(entries: seq<DateEntry>, d: DateEntry, f: LogFile)
    requires d in entries && d.isDir && f in d.files && IsLogName(f.name)
    ensures Source(d, f) in Candidates(entries)
  {
    var sorted := Ordering.SortBy(entries, DateName, true);
    assert d in multiset(entries);
    assert d in sorted;
    SourcesHave(sorted, d, f);
  }

  lemma {:induction false} SourcesHave(dates: seq<DateEntry>, d: DateEntry, f: LogFile)
    requires d in dates && d.isDir && f in d.files && IsLogName(f.name)
    ensures Source(d, f) in Sources(dates)
  {
    if dates[0] == d {
      var sorted := Ordering.SortBy(LogFiles(d.files), FileName, true);
      assert f in LogFiles(d.files);
      assert f in multiset(LogFiles(d.files));
      var k :| 0 <= k < |sorted| && sorted[k] == f;
      assert DateSources(d)[k] == Source(d, f);
    } else {
      SourcesHave(dates[1..], d, f);
    }
  }

  /** The sources of one date come in descending file-name order. */
  lemma DateSourcesNewestFirst(d: DateEntry)
    ensures NewestFirst(DateSources(d))
  {
    var sorted := Ordering.SortBy(LogFiles(d.files), FileName, true);
    var r := DateSources(d);
    forall i, j | 0 <= i < j < |r|
      ensures ReadBefore(r[i], r[j])
    {
      assert r[i] == Source(d, sorted[i]) && r[j] == Source(d, sorted[j]);
      assert Ordering.InOrder(true, FileName(sorted[i]), FileName(sorted[j]));
      Ordering.StrLeTotal(d.name, d.name);
    }
  }

  /** Date directories with distinct names, taken in descending name order, give sources
      newest first. */
  lemma {:induction false} SourcesNewestFirst(dates: seq<DateEntry>)
    requires Ordering.SortedBy(dates, DateName, true)
    requires Ordering.DistinctKeys(dates, DateName)
    ensures NewestFirst(Sources(dates))
  {
    if |dates| > 0 {
      var head := if dates[0].isDir then DateSources(dates[0]) else [];
      var tail := dates[1..];
      assert Ordering.SortedBy(tail, DateName, true) by {
        forall i, j | 0 <= i < j < |tail|
          ensures Ordering.InOrder(true, DateName(tail[i]), DateName(tail[j]))
        {
          assert tail[i] == dates[i + 1] && tail[j] == dates[j + 1];
        }
      }
      assert Ordering.DistinctKeys(tail, DateName) by {
        forall i, j | 0 <= i < j < |tail|
          ensures DateName(tail[i]) != DateName(tail[j])
        {
          assert tail[i] == dates[i + 1] && tail[j] == dates[j + 1];
        }
      }
      SourcesNewestFirst(tail);
      var rest := Sources(tail);
      if dates[0].isDir {
        DateSourcesNewestFirst(dates[0]);
        DateSourcesFrom(dates[0]);
      }
      forall a, b | a in head && b in rest
        ensures ReadBefore(a, b)
      {
        var k :| 0 <= k < |tail| && tail[k] == b.date;
        assert b.date == dates[k + 1];
        assert Ordering.InOrder(true, DateName(dates[0]), DateName(dates[k + 1]));
        assert DateName(dates[0]) != DateName(dates[k + 1]);
      }
      AppendNewestFirst(head, rest);
    }
  }

  lemma AppendNewestFirst(a: seq<Source>, b: seq<Source>)
    requires NewestFirst(a) && NewestFirst(b)
    requires forall x, y | x in a && y in b :: ReadBefore(x, y)
    ensures NewestFirst(a + b)
  {
    var r := a + b;
    forall i, j | 0 <= i < j < |r|
      ensures ReadBefore(r[i], r[j])
    {
      if j < |a| {
        assert r[i] == a[i] && r[j] == a[j];
      } else if i >= |a| {
        assert r[i] == b[i - |a|] && r[j] == b[j - |a|];
      } else {
        assert r[i] == a[i] && r[j] == b[j - |a|];
        assert a[i] in a && b[j - |a|] in b;
      }
    }
  }

  /** The scan visits dates newest first, and files newest first within a date (names in a
      directory are distinct). */
  lemma CandidatesNewestFirst(entries: seq<DateEntry>)
    requires Ordering.DistinctKeys(entries, DateName)
    ensures NewestFirst(Candidates(entries))
  {
    Ordering.SortKeepsDistinctKeys(entries, DateName, true);
    SourcesNewestFirst(Ordering.SortBy(entries, DateName, true));
  }

  // ---------------------------------------------------------------- reading

  lemma {:induction false} ReadAllAppend(logDir: string, a: seq<Source>, b: seq<Source>,
                                         parse: string -> Option<Json>)
    ensures ReadAll(logDir, a + b, parse) == ReadAll(logDir, a, parse) + ReadAll(logDir, b, parse)
  {
    if |a| == 0 {
      assert a + b == b;
    } else {
      assert (a + b)[0] == a[0];
      assert (a + b)[1..] == a[1..] + b;
      ReadAllAppend(logDir, a[1..], b, parse);
    }
  }

  /** A file that fails is skipped and the scan goes on with the next one. */
  lemma UnreadableSkipped(logDir: string, a: seq<Source>, s: Source, b: seq<Source>,
                          parse: string -> Option<Json>)
    requires ReadLog(logDir, s, parse).None?
    ensures ReadAll(logDir, a + [s] + b, parse) == ReadAll(logDir, a, parse) + ReadAll(logDir, b, parse)
  {
    ReadAllAppend(logDir, a + [s], b, parse);
    ReadAllAppend(logDir, a, [s], parse);
    assert [s][1..] == [];
    assert ReadAll(logDir, [s], parse) == ReadAll(logDir, [], parse) == [];
    Sequences.AppendEmpty(ReadAll(logDir, a, parse));
  }

  /** When every file reads, the records are exactly the files' contents, in scan order. */
  lemma {:induction false} AllReadable(logDir: string, sources: seq<Source>, parse: string -> Option<Json>)
    requires forall k | 0 <= k < |sources| :: ReadLog(logDir, sources[k], parse).Some?
    ensures |ReadAll(logDir, sources, parse)| == |sources|
    ensures forall k | 0 <= k < |sources| ::
              ReadAll(logDir, sources, parse)[k] == ReadLog(logDir, sources[k], parse).value
  {
    if |sources| > 0 {
      var tail := sources[1..];
      assert forall k | 0 <= k < |tail| :: tail[k] == sources[k + 1];
      AllReadable(logDir, tail, parse);
    }
  }

  /** A record `save_test_log` wrote comes back with its own fields and its path. */
  lemma SavedRecordReadBack(logDir: string, s: Source, parse: string -> Option<Json>,
                            timestamp: string, article: string, questions: seq<Json>,
                            answers: seq<string>, evaluation: Json)
    requires Has(evaluation, "score") && Has(evaluation, "item_analysis")
    requires Has(evaluation, "overall_feedback") && Has(evaluation, "suggestions")
    requires s.file.content.Some?
    requires parse(s.file.content.value)
             == Some(Evaluator.TestLogRecord(timestamp, article, questions, answers, evaluation))
    ensures var r := ReadLog(logDir, s, parse);
      && r.Some?
      && Lookup(r.value.fields, "timestamp") == Some(JStr(timestamp))
      && Lookup(r.value.fields, "score") == Some(Get(evaluation, "score"))
      && Lookup(r.value.fields, "file_path") == Some(JStr(PathOf(logDir, s)))
  {
    var record := Evaluator.TestLogRecord(timestamp, article, questions, answers, evaluation);
    Evaluator.TestLogRecordFields(timestamp, article, questions, answers, evaluation);
    ParsedObjectRead(logDir, s, parse, record.fields);
  }

  /** A file that decodes to a dict is read back as that dict with its path added. */
  lemma ParsedObjectRead(logDir: string, s: Source, parse: string -> Option<Json>,
                         fields: seq<(string, Json)>)
    requires s.file.content.Some? && parse(s.file.content.value) == Some(JObject(fields))
    ensures ReadLog(logDir, s, parse).Some?
    ensures forall key | key != "file_path" ::
              Lookup(ReadLog(logDir, s, parse).value.fields, key) == Lookup(fields, key)
  {
  }

  // ---------------------------------------------------------------- score history

  /** `get_score_history` over the logs: one `(timestamp, score)` pair per log, defaulting
      to `''` and `0`. */
  function ScoreHistory(logs: seq<Json>): (r: seq<(Json, Json)>)
    requires forall k | 0 <= k < |logs| :: logs[k].JObject?
    ensures |r| == |logs|
    ensures forall k | 0 <= k < |logs| ::
              r[k] == (GetOr(logs[k], "timestamp", JStr("")), GetOr(logs[k], "score", JInt(0)))
  {
    if |logs| == 0 then []
    else
      var head := (GetOr(logs[0], "timestamp", JStr("")), GetOr(logs[0], "score", JInt(0)));
      [head] + ScoreHistory(logs[1..])
  }

  /** The history of a user, read through `get_user_logs`. */
  function UserScoreHistory(logDir: string, listing: Option<seq<DateEntry>>,
                            parse: string -> Option<Json>): (r: seq<(Json, Json)>)
    ensures |r| == |UserLogs(logDir, listing, parse)|
    ensures listing.None? ==> r == []
  {
    ScoreHistory(UserLogs(logDir, listing, parse))
  }

  /** A saved test's timestamp and score appear in the history as written. */
  lemma SavedScoreInHistory(logDir: string, s: Source, parse: string -> Option<Json>,
                            timestamp: string, article: string, questions: seq<Json>,
                            answers: seq<string>, evaluation: Json)
    requires Has(evaluation, "score") && Has(evaluation, "item_analysis")
    requires Has(evaluation, "overall_feedback") && Has(evaluation, "suggestions")
    requires s.file.content.Some?
    requires parse(s.file.content.value)
             == Some(Evaluator.TestLogRecord(timestamp, article, questions, answers, evaluation))
    ensures ScoreHistory(ReadAll(logDir, [s], parse))
            == [(JStr(timestamp), Get(evaluation, "score"))]
  {
    SavedRecordReadBack(logDir, s, parse, timestamp, article, questions, answers, evaluation);
    assert [s][1..] == [];
  }

  // ---------------------------------------------------------------- display

  /** The characters of a string, each as a one-character string. */
  function Chars(s: string): (r: seq<Json>)
    ensures |r| == |s|
    ensures forall k | 0 <= k < |s| :: r[k] == JStr([s[k]])
  {
    if |s| == 0 then [] else [JStr([s[0]])] + Chars(s[1..])
  }

  /** What `for x in value` (and `zip`) iterates over; `None` where Python raises `TypeError`. */
  function Iterate(j: Json): (r: Option<seq<Json>>)
    ensures j.JList? ==> r == Some(j.items)
    ensures r.None? <==> !(j.JList? || j.JStr? || j.JObject?)
  {
    match j
    case JList(items) => Some(items)
    case JStr(s) => Some(Chars(s))
    case JObject(fields) => Some(seq(|DictKeys(fields)|, k requires 0 <= k < |DictKeys(fields)| =>
                                       JStr(DictKeys(fields)[k])))
    case _ => None
  }

  /** The analysis of one question as shown: the verdict, and the feedback when given. */
  datatype Verdict = Verdict(correct: bool, feedback: Option<Json>)

  /** One question section of the display, before rendering. */
  datatype Section = Section(number: int, kind: Json, question: Json, options: Option<seq<Json>>,
                             answer: Json, expected: Json, verdict: Option<Verdict>)

  /** The verdict for question `i` (counted from 0): `Some(None)` when `item_analysis` has no
      entry `i`, `None` where looking it up or reading it raises. */
  function VerdictAt(analysis: Json, i: nat): (r: Option<Option<Verdict>>)
    ensures analysis.JList? && i >= |analysis.items| ==> r == Some(None)
    ensures analysis.JList? && i < |analysis.items| ==>
              (r.Some? <==> analysis.items[i].JObject?)
              && (r.Some? ==> r.value.Some?
                              && (r.value.value.feedback.Some? <==> Has(analysis.items[i], "feedback")))
  {
    match analysis
    case JList(items) =>
      if i < |items| then
        match items[i]
        case JObject(fields) =>
          var correct := Truthy(Lookup(fields, "correct").GetOr(JBool(false)));
          Some(Some(Verdict(correct, Lookup(fields, "feedback"))))
        case _ => None
      else Some(None)
    case JStr(s) => if i < |s| then None else Some(None)
    case JObject(fields) => if i < |DictKeys(fields)| then None else Some(None)
    case _ => None
  }

  /** Whether a question lists its options: its `type` is `"multiple_choice"` and it has them. */
  predicate ListsOptions(q: Json)
    requires q.JObject?
  {
    Lookup(q.fields, "type") == Some(JStr("multiple_choice")) && Has(q, "options")
  }

  /** The section for question `i` (counted from 0, shown from 1); `None` where building it
      raises. */
  function SectionOf(i: nat, q: Json, answer: Json, analysis: Json): (r: Option<Section>)
    ensures r.Some? ==> q.JObject? && r.value.number == i + 1 && r.value.answer == answer
    ensures r.Some? ==> (r.value.options.Some? <==> ListsOptions(q))
    ensures r.Some? && analysis.JList? ==>
              (r.value.verdict.Some? <==> i < |analysis.items|)
  {
    match q
    case JObject(fields) =>
      var options := if ListsOptions(q) then Iterate(Get(q, "options")) else Some([]);
      var verdict := VerdictAt(analysis, i);
      if options.None? || verdict.None? then None
      else
        Some(Section(i + 1, GetOr(q, "type", JStr("N/A")), GetOr(q, "question", JStr("N/A")),
                     if ListsOptions(q) then options else None, answer,
                     GetOr(q, "correct_answer", JStr("N/A")), verdict.value))
    case _ => None
  }

  /** The sections from position `i` on of `enumerate(zip(questions, answers), 1)`. */
  function Sections(questions: seq<Json>, answers: seq<Json>, analysis: Json, i: nat)
    : (r: Option<seq<Section>>)
    requires i <= |questions| && i <= |answers|
    ensures r.Some? ==> |r.value| == Pairs(questions, answers) - i
    ensures r.Some? ==> forall k | 0 <= k < |r.value| ::
              SectionOf(i + k, questions[i + k], answers[i + k], analysis) == Some(r.value[k])
    decreases |questions| - i
  {
    if i == |questions| || i == |answers| then Some([])
    else
      match SectionOf(i, questions[i], answers[i], analysis)
      case None => None
      case Some(head) =>
        match Sections(questions, answers, analysis, i + 1)
        case None => None
        case Some(rest) => Some([head] + rest)
  }

  /** How many pairs `zip` yields. */
  function Pairs(questions: seq<Json>, answers: seq<Json>): nat {
    if |questions| < |answers| then |questions| else |answers|
  }

  /** The first line of section `n`. */
  function Heading(n: int): string {
    "\n### Question " + IntToString(n)
  }

  /** The markdown lines of one section. */
  function Render(s: Section): (r: seq<string>)
    ensures |r| > 0 && r[0] == Heading(s.number)
  {
    Intro(s) + OptionsPart(s.options) + AnswerPart(s) + VerdictPart(s.verdict)
  }

  function Intro(s: Section): seq<string> {
    [Heading(s.number), "**Type:** " + Show(s.kind), "**Question:** " + Show(s.question)]
  }

  function OptionsPart(options: Option<seq<Json>>): seq<string> {
    match options
    case Some(opts) => ["**Options:**"] + OptionLines(opts)
    case None => []
  }

  function OptionLines(opts: seq<Json>): (r: seq<string>)
    ensures |r| == |opts|
    ensures forall k | 0 <= k < |opts| :: r[k] == "  - " + Show(opts[k])
  {
    if |opts| == 0 then [] else ["  - " + Show(opts[0])] + OptionLines(opts[1..])
  }

  function AnswerPart(s: Section): seq<string> {
    ["**Your Answer:** " + Show(s.answer), "**Correct Answer:** " + Show(s.expected)]
  }

  /** The result line shown for a verdict. */
  function ResultLine(correct: bool): string {
    "**Result:** " + (if correct then "\U{2713} Correct" else "\U{2717} Incorrect")
  }

  function VerdictPart(verdict: Option<Verdict>): seq<string> {
    match verdict
    case Some(v) =>
      [ResultLine(v.correct)]
      + (match v.feedback
         case Some(f) => ["**Feedback:** " + Show(f)]
         case None => [])
    case None => []
  }

  /** Line `l` begins with `prefix`. */
  predicate StartsWith(l: string, prefix: string) {
    |prefix| <= |l| && l[..|prefix|] == prefix
  }

  /** Some line of `lines` begins with `prefix`. */
  predicate Shows(lines: seq<string>, prefix: string) {
    exists l | l in lines :: StartsWith(l, prefix)
  }

  /** The third character of a rendered line tells the options header, result and feedback
      lines apart from all others; `Marked` says the section has what such a line shows. */
  predicate Marked(l: string, s: Section) {
    && |l| > 2
    && (l[2] == 'O' ==> s.options.Some?)
    && (l[2] == 'R' ==> s.verdict.Some?)
    && (l[2] == 'F' ==> s.verdict.Some? && s.verdict.value.feedback.Some?)
  }

  lemma ThirdOfPrefixed(p: string, x: string)
    requires |p| > 2
    ensures |p + x| > 2 && (p + x)[2] == p[2]
  {
  }

  lemma RenderMarks(s: Section)
    ensures forall l | l in Render(s) :: Marked(l, s)
  {
    forall l | l in Intro(s)
      ensures Marked(l, s)
    {
      ThirdOfPrefixed("\n### Question ", IntToString(s.number));
      ThirdOfPrefixed("**Type:** ", Show(s.kind));
      ThirdOfPrefixed("**Question:** ", Show(s.question));
    }
    forall l | l in OptionsPart(s.options)
      ensures Marked(l, s)
    {
      OptionsPartMarked(s, l);
    }
    forall l | l in AnswerPart(s)
      ensures Marked(l, s)
    {
      ThirdOfPrefixed("**Your Answer:** ", Show(s.answer));
      ThirdOfPrefixed("**Correct Answer:** ", Show(s.expected));
    }
    forall l | l in VerdictPart(s.verdict)
      ensures Marked(l, s)
    {
      VerdictPartMarked(s, l);
    }
    assert Render(s) == Intro(s) + OptionsPart(s.options) + AnswerPart(s) + VerdictPart(s.verdict);
  }

  lemma OptionsPartMarked(s: Section, l: string)
    requires l in OptionsPart(s.options)
    ensures Marked(l, s)
  {
    var opts := s.options.value;
    if l != "**Options:**" {
      var k :| 0 <= k < |OptionLines(opts)| && OptionLines(opts)[k] == l;
      ThirdOfPrefixed("  - ", Show(opts[k]));
    }
  }

  lemma VerdictPartMarked(s: Section, l: string)
    requires l in VerdictPart(s.verdict)
    ensures Marked(l, s)
  {
    var v := s.verdict.value;
    if l == ResultLine(v.correct) {
      ThirdOfPrefixed("**Result:** ", if v.correct then "\U{2713} Correct" else "\U{2717} Incorrect");
    } else {
      ThirdOfPrefixed("**Feedback:** ", Show(v.feedback.value));
    }
  }

  /** A line of any part of a section is a line of the rendered section. */
  lemma InRender(s: Section, l: string)
    requires l in Intro(s) || l in OptionsPart(s.options) || l in AnswerPart(s)
             || l in VerdictPart(s.verdict)
    ensures l in Render(s)
  {
    assert Render(s) == Intro(s) + OptionsPart(s.options) + AnswerPart(s) + VerdictPart(s.verdict);
  }

  /** The options header is shown exactly when the section lists options, each option on its
      own line. */
  lemma OptionsShownIff(s: Section)
    ensures "**Options:**" in Render(s) <==> s.options.Some?
    ensures s.options.Some? ==> forall k | 0 <= k < |s.options.value| ::
              "  - " + Show(s.options.value[k]) in Render(s)
  {
    RenderMarks(s);
    assert "**Options:**"[2] == 'O';
    if s.options.Some? {
      var opts := s.options.value;
      assert OptionsPart(s.options) == ["**Options:**"] + OptionLines(opts);
      InRender(s, "**Options:**");
      forall k | 0 <= k < |opts|
        ensures "  - " + Show(opts[k]) in Render(s)
      {
        assert OptionLines(opts)[k] in OptionsPart(s.options);
        InRender(s, OptionLines(opts)[k]);
      }
    }
  }

  /** A result line is shown exactly when the section has a verdict, and it names that
      verdict; a feedback line exactly when the verdict carries feedback. */
  lemma VerdictShownIff(s: Section)
    ensures Shows(Render(s), "**Result:** ") <==> s.verdict.Some?
    ensures s.verdict.Some? ==> ResultLine(s.verdict.value.correct) in Render(s)
    ensures Shows(Render(s), "**Feedback:** ") <==> s.verdict.Some? && s.verdict.value.feedback.Some?
  {
    ShownResultMarked(s);
    ShownFeedbackMarked(s);
    if s.verdict.Some? {
      var v := s.verdict.value;
      var line := ResultLine(v.correct);
      assert line in VerdictPart(s.verdict);
      InRender(s, line);
      assert StartsWith(line, "**Result:** ");
      if v.feedback.Some? {
        var fl := "**Feedback:** " + Show(v.feedback.value);
        assert fl in VerdictPart(s.verdict);
        InRender(s, fl);
        assert StartsWith(fl, "**Feedback:** ");
      }
    }
  }

  /** A shown result line implies a verdict. */
  lemma ShownResultMarked(s: Section)
    ensures Shows(Render(s), "**Result:** ") ==> s.verdict.Some?
  {
    RenderMarks(s);
    ShownMark(Render(s), s, "**Result:** ");
  }

  /** A shown feedback line implies a verdict with feedback. */
  lemma ShownFeedbackMarked(s: Section)
    ensures Shows(Render(s), "**Feedback:** ") ==> s.verdict.Some? && s.verdict.value.feedback.Some?
  {
    RenderMarks(s);
    ShownMark(Render(s), s, "**Feedback:** ");
  }

  /** A shown line beginning with `prefix` has the third character of `prefix`. */
  lemma ShownMark(lines: seq<string>, s: Section, prefix: string)
    requires |prefix| > 2
    requires forall l | l in lines :: Marked(l, s)
    ensures Shows(lines, prefix) ==> Marked(prefix, s)
  {
    if Shows(lines, prefix) {
      var l :| l in lines && StartsWith(l, prefix);
      assert l[..|prefix|][2] == l[2];
    }
  }

  /** In the source's own terms: question `i` lists options exactly when it is a multiple
      choice question with `options`, shows a result exactly when `item_analysis` has an entry
      for it, and shows feedback exactly when that entry has a `feedback` key. */
  lemma SectionShownAsAnalysed(i: nat, q: Json, answer: Json, analysis: Json)
    requires SectionOf(i, q, answer, analysis).Some?
    requires analysis.JList?
    ensures var lines := Render(SectionOf(i, q, answer, analysis).value);
      && ("**Options:**" in lines <==> ListsOptions(q))
      && (Shows(lines, "**Result:** ") <==> i < |analysis.items|)
      && (Shows(lines, "**Feedback:** ") <==> i < |analysis.items| && Has(analysis.items[i], "feedback"))
  {
    var s := SectionOf(i, q, answer, analysis).value;
    OptionsShownIff(s);
    VerdictShownIff(s);
  }

  /** The lines of all sections, in order. */
  function RenderAll(sections: seq<Section>): seq<string> {
    Sequences.Flatten(Sequences.Map(Render, sections))
  }

  /** A value `"\n".join` accepts: a string, or the default when the key is missing. */
  function TextOr(log: Json, key: string): Option<string>
    requires log.JObject?
  {
    match GetOr(log, key, JStr("N/A"))
    case JStr(s) => Some(s)
    case _ => None
  }

  /** The lines above the question sections. */
  function Header(log: Json, article: string): (r: seq<string>)
    requires log.JObject?
    ensures |r| == 5
  {
    ["# Test Log - " + Show(GetOr(log, "timestamp", JStr("Unknown"))),
     "\n**Score: " + Show(GetOr(log, "score", JStr("N/A"))) + "/100**\n",
     "## Article", article, "\n## Questions and Answers"]
  }

  /** The lines below the question sections. */
  function Footer(overall: string, suggestions: string): seq<string> {
    ["\n## Overall Feedback", overall, "\n## Suggestions", suggestions]
  }

  /** The question and answer lists `zip` pairs, when both are iterable. */
  function QuestionsOf(log: Json): Option<seq<Json>>
    requires log.JObject?
  {
    Iterate(GetOr(log, "questions", JList([])))
  }

  function AnswersOf(log: Json): Option<seq<Json>>
    requires log.JObject?
  {
    Iterate(GetOr(log, "user_answers", JList([])))
  }

  function AnalysisOf(log: Json): Json
    requires log.JObject?
  {
    GetOr(log, "item_analysis", JList([]))
  }

  /** The lines `format_log_for_display` joins; `None` where it raises. */
  function DisplayLines(log: Json): (r: Option<seq<string>>)
    ensures r.Some? ==> log.JObject? && QuestionsOf(log).Some? && AnswersOf(log).Some?
  {
    if !log.JObject? then None
    else
      var article := TextOr(log, "article");
      var overall := TextOr(log, "overall_feedback");
      var suggestions := TextOr(log, "suggestions");
      var questions := QuestionsOf(log);
      var answers := AnswersOf(log);
      if article.None? || overall.None? || suggestions.None? || questions.None? || answers.None? then None
      else
        match Sections(questions.value, answers.value, AnalysisOf(log), 0)
        case None => None
        case Some(sections) =>
          Some(Header(log, article.value) + RenderAll(sections) + Footer(overall.value, suggestions.value))
  }

  /** `format_log_for_display`. */
  function FormatLog(log: Json): (r: Option<string>)
    ensures r.Some? <==> DisplayLines(log).Some?
  {
    match DisplayLines(log)
    case None => None
    case Some(lines) => Some(Join(lines, "\n"))
  }

  /** The sections exist when every paired question yields one. */
  lemma {:induction false} SectionsDefined(questions: seq<Json>, answers: seq<Json>, analysis: Json, i: nat)
    requires i <= |questions| && i <= |answers|
    requires forall k | i <= k < Pairs(questions, answers) ::
               SectionOf(k, questions[k], answers[k], analysis).Some?
    ensures Sections(questions, answers, analysis, i).Some?
    decreases |questions| - i
  {
    if i < |questions| && i < |answers| {
      SectionsDefined(questions, answers, analysis, i + 1);
    }
  }

  /** A question the display can show: a dict whose options, when listed, can be iterated. */
  predicate Showable(q: Json) {
    q.JObject? && (ListsOptions(q) ==> Iterate(Get(q, "options")).Some?)
  }

  /** What a record of `save_test_log` holds under `key`, as `log_data.get` returns it. */
  lemma RecordGet(timestamp: string, article: string, questions: seq<Json>,
                  answers: seq<string>, evaluation: Json)
    requires Has(evaluation, "score") && Has(evaluation, "item_analysis")
    requires Has(evaluation, "overall_feedback") && Has(evaluation, "suggestions")
    ensures var log := Evaluator.TestLogRecord(timestamp, article, questions, answers, evaluation);
      && TextOr(log, "article") == Some(article)
      && QuestionsOf(log) == Some(questions)
      && AnswersOf(log) == Some(Evaluator.AnswerList(answers).items)
      && AnalysisOf(log) == Get(evaluation, "item_analysis")
      && GetOr(log, "overall_feedback", JStr("N/A")) == Get(evaluation, "overall_feedback")
      && GetOr(log, "suggestions", JStr("N/A")) == Get(evaluation, "suggestions")
  {
    Evaluator.TestLogRecordFields(timestamp, article, questions, answers, evaluation);
  }

  /** A log `save_test_log` wrote is displayed, article included, when its questions are
      showable, every analysis entry is a dict, and the overall feedback and suggestions are
      strings. */
  lemma SavedLogDisplays(timestamp: string, article: string, questions: seq<Json>,
                         answers: seq<string>, evaluation: Json)
    requires Has(evaluation, "score") && Has(evaluation, "item_analysis")
    requires Has(evaluation, "overall_feedback") && Has(evaluation, "suggestions")
    requires forall k | 0 <= k < |questions| :: Showable(questions[k])
    requires Get(evaluation, "item_analysis").JList?
    requires forall k | 0 <= k < |Get(evaluation, "item_analysis").items| ::
               Get(evaluation, "item_analysis").items[k].JObject?
    requires Get(evaluation, "overall_feedback").JStr? && Get(evaluation, "suggestions").JStr?
    ensures var log := Evaluator.TestLogRecord(timestamp, article, questions, answers, evaluation);
      FormatLog(log).Some? && IsInfix(article, FormatLog(log).value)
  {
    var log := Evaluator.TestLogRecord(timestamp, article, questions, answers, evaluation);
    RecordGet(timestamp, article, questions, answers, evaluation);
    var analysis := Get(evaluation, "item_analysis");
    ShowableSections(questions, Evaluator.AnswerList(answers).items, analysis);
    Displayed(log);
    ArticleShown(log);
  }

  /** Showable questions against a list of dict analysis entries yield their sections. */
  lemma ShowableSections(questions: seq<Json>, given: seq<Json>, analysis: Json)
    requires forall k | 0 <= k < |questions| :: Showable(questions[k])
    requires analysis.JList?
    requires forall k | 0 <= k < |analysis.items| :: analysis.items[k].JObject?
    ensures Sections(questions, given, analysis, 0).Some?
  {
    forall k | 0 <= k < Pairs(questions, given)
      ensures SectionOf(k, questions[k], given[k], analysis).Some?
    {
      assert Showable(questions[k]);
    }
    SectionsDefined(questions, given, analysis, 0);
  }

  /** A dict log is displayed when its texts are strings, its question and answer values can
      be iterated, and every paired question yields a section. */
  lemma Displayed(log: Json)
    requires log.JObject?
    requires TextOr(log, "article").Some?
    requires TextOr(log, "overall_feedback").Some? && TextOr(log, "suggestions").Some?
    requires QuestionsOf(log).Some? && AnswersOf(log).Some?
    requires Sections(QuestionsOf(log).value, AnswersOf(log).value, AnalysisOf(log), 0).Some?
    ensures DisplayLines(log).Some?
  {
  }

  /** A displayed log starts with its header. */
  lemma DisplayStartsWithHeader(log: Json)
    requires DisplayLines(log).Some?
    ensures |DisplayLines(log).value| >= 5
    ensures DisplayLines(log).value[..5] == Header(log, TextOr(log, "article").value)
  {
    var sections := Sections(QuestionsOf(log).value, AnswersOf(log).value, AnalysisOf(log), 0).value;
    var head := Header(log, TextOr(log, "article").value);
    var rest := RenderAll(sections) + Footer(TextOr(log, "overall_feedback").value,
                                              TextOr(log, "suggestions").value);
    assert DisplayLines(log).value == head + rest;
  }

  /** A displayed log shows its article. */
  lemma ArticleShown(log: Json)
    requires DisplayLines(log).Some?
    ensures IsInfix(TextOr(log, "article").value, FormatLog(log).value)
  {
    var lines := DisplayLines(log).value;
    DisplayStartsWithHeader(log);
    assert lines[3] == lines[..5][3];
    JoinHasEach(lines, "\n", 3);
  }

  /** A log whose suggestions are not a string cannot be displayed: `"\n".join` raises. This
      holds for evaluations `validate_evaluation_response` accepts, since it does not look at
      the type of `suggestions`. */
  lemma AcceptedButNotDisplayable(timestamp: string, article: string, questions: seq<Json>,
                                  answers: seq<string>, evaluation: Json)
    requires Evaluator.ValidEvaluation(evaluation)
    requires !Get(evaluation, "suggestions").JStr?
    ensures FormatLog(Evaluator.TestLogRecord(timestamp, article, questions, answers, evaluation)).None?
  {
    RecordGet(timestamp, article, questions, answers, evaluation);
  }

  /** The heading of every rendered section is one of the rendered lines. */
  lemma RenderAllHasHeadings(sections: seq<Section>, k: nat)
    requires k < |sections|
    ensures Heading(sections[k].number) in RenderAll(sections)
  {
    var parts := Sequences.Map(Render, sections);
    assert parts[k] == Render(sections[k]);
    Sequences.FlattenHas(parts, k, 0);
  }

  /** The display shows a section heading for each of the `min(len(questions),
      len(user_answers))` pairs, numbered from 1. */
  lemma SectionHeadingsShown(log: Json, k: nat)
    requires DisplayLines(log).Some?
    requires k < Pairs(QuestionsOf(log).value, AnswersOf(log).value)
    ensures IsInfix(Heading(k + 1), FormatLog(log).value)
  {
    var questions, answers := QuestionsOf(log).value, AnswersOf(log).value;
    var sections := Sections(questions, answers, AnalysisOf(log), 0).value;
    var lines := DisplayLines(log).value;
    var head := Header(log, TextOr(log, "article").value);
    var tail := Footer(TextOr(log, "overall_feedback").value, TextOr(log, "suggestions").value);
    assert lines == head + RenderAll(sections) + tail;
    assert SectionOf(k, questions[k], answers[k], AnalysisOf(log)) == Some(sections[k]);
    RenderAllHasHeadings(sections, k);
    var m := MiddleIndex(head, RenderAll(sections), tail, Heading(k + 1));
    JoinHasEach(lines, "\n", m);
  }

  /** An element of the middle part of `a + b + c` is at some index of the whole. */
  lemma MiddleIndex<T>(a: seq<T>, b: seq<T>, c: seq<T>, x: T) returns (m: nat)
    requires x in b
    ensures m < |a + b + c| && (a + b + c)[m] == x
  {
    var i :| 0 <= i < |b| && b[i] == x;
    m := |a| + i;
  }
}
