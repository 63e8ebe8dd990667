/** The measurement step (`run_speed_test`): one run of
    `speedtest-cli --simple`, whose report is read line by line for the
    `Ping:`, `Download:` and `Upload:` values. How a numeric token becomes a
    number (`float()`) is a partial function supplied by the caller. */
module Measure {
  import opened Prelude
  import opened Text

  /** `float()` on a token: `None` where it raises ValueError. */
  type Reader = string -> Option<real>

  /** How the process ended: past the 60-second timeout, with a non-zero
      exit status, or normally with this standard output. */
  datatype SpeedRun = TimedOut | ExitFailed | Completed(stdout: string)

  datatype Metrics = Metrics(ping: real, download: real, upload: real)

  datatype Label = PingLine | DownloadLine | UploadLine | Unlabelled

  /** The classification of one report line; the labels are tried in the
      order ping, download, upload, so the first that occurs wins. */
  function LabelOf(line: string): Label {
    if Contains(line, "Ping:") then PingLine
    else if Contains(line, "Download:") then DownloadLine
    else if Contains(line, "Upload:") then UploadLine
    else Unlabelled
  }

  /** `float(line.split(':')[1].strip().split()[0])`, or `None` where that
      raises. */
  function Reading(line: string, num: Reader): Option<real> {
    match TokenAfter(line, ":")
    case None => None
    case Some(t) => num(t)
  }

  /** The values captured so far. */
  datatype Captured = Captured(ping: Option<real>, download: Option<real>, upload: Option<real>)

  const Nothing := Captured(None, None, None)

  function Field(c: Captured, l: Label): Option<real> {
    match l
    case PingLine => c.ping
    case DownloadLine => c.download
    case UploadLine => c.upload
    case Unlabelled => None
  }

  /** Stores `v` under label `l`, replacing any earlier value. */
  function Put(c: Captured, l: Label, v: real): (d: Captured)
    requires !l.Unlabelled?
    ensures Field(d, l) == Some(v)
    ensures forall m :: m != l ==> Field(d, m) == Field(c, m)
  {
    match l
    case PingLine => c.(ping := Some(v))
    case DownloadLine => c.(download := Some(v))
    case UploadLine => c.(upload := Some(v))
  }

  /** One iteration of the loop: an unlabelled line is skipped; a labelled
      line whose value cannot be read aborts the whole measurement. */
  function Record(c: Captured, line: string, num: Reader): Option<Captured> {
    var l := LabelOf(line);
    if l.Unlabelled? then Some(c)
    else
      match Reading(line, num)
      case None => None
      case Some(v) => Some(Put(c, l, v))
  }

  /** The loop over the report's lines, first to last. */
  function Scan(lines: seq<string>, num: Reader): Option<Captured> {
    if lines == [] then Some(Nothing)
    else
      match Scan(lines[..|lines| - 1], num)
      case None => None
      case Some(c) => Record(c, lines[|lines| - 1], num)
  }

  /** `run_speed_test` after the process finished normally: the report is
      stripped and split into lines; all three values must have been read. */
  function ParseReport(stdout: string, num: Reader): Option<Metrics> {
    match Scan(Split(Strip(stdout), "\n"), num)
    case None => None
    case Some(c) =>
      if c.ping.Some? && c.download.Some? && c.upload.Some?
      then Some(Metrics(c.ping.value, c.download.value, c.upload.value))
      else None
  }

  /** `run_speed_test`: a timeout or a failed exit gives no metrics. */
  function RunSpeedTest(run: SpeedRun, num: Reader): (r: Option<Metrics>)
    ensures !run.Completed? ==> r.None?
    ensures run.Completed? ==> r == ParseReport(run.stdout, num)
  {
    match run
    case TimedOut => None
    case ExitFailed => None
    case Completed(out) => ParseReport(out, num)
  }

  // An independent description of what the loop computes.

  /** A line the loop gets past: unlabelled, or carrying a readable value. */
  predicate Readable(line: string, num: Reader) {
    LabelOf(line).Unlabelled? || Reading(line, num).Some?
  }

  /** The position of the last line carrying label `l`. */
  function LastWith(lines: seq<string>, l: Label): (r: Option<nat>)
    ensures r.Some? ==> r.value < |lines| && LabelOf(lines[r.value]) == l
    ensures r.Some? ==> forall j :: r.value < j < |lines| ==> LabelOf(lines[j]) != l
    ensures r.None? ==> forall j :: 0 <= j < |lines| ==> LabelOf(lines[j]) != l
  {
    if lines == [] then None
    else if LabelOf(lines[|lines| - 1]) == l then Some(|lines| - 1)
    else LastWith(lines[..|lines| - 1], l)
  }

  /** The value on the last line labelled `l`, if there is such a line. */
  function Value(lines: seq<string>, l: Label, num: Reader): Option<real> {
    match LastWith(lines, l)
    case None => None
    case Some(i) => Reading(lines[i], num)
  }

  /** One iteration gets through exactly when its line is readable, and
      then updates only that line's label, with that line's value. */
  lemma RecordStep(c: Captured, line: string, num: Reader, l: Label)
    ensures Record(c, line, num).Some? <==> Readable(line, num)
    ensures Record(c, line, num).Some? ==>
              Field(Record(c, line, num).value, l) ==
                (if LabelOf(line) == l && !l.Unlabelled? then Reading(line, num) else Field(c, l))
  {
  }

  /** The loop over some lines and one more. */
  lemma ScanSnoc(init: seq<string>, line: string, num: Reader)
    ensures Scan(init + [line], num) ==
              match Scan(init, num)
              case None => None
              case Some(c) => Record(c, line, num)
  {
    var lines := init + [line];
    assert lines[..|lines| - 1] == init && lines[|lines| - 1] == line;
  }

  /** The loop gets through exactly when every line is readable. */
  lemma {:induction false} ScanReadable(lines: seq<string>, num: Reader)
    ensures Scan(lines, num).Some? <==> forall k :: 0 <= k < |lines| ==> Readable(lines[k], num)
  {
    if lines != [] {
      var n := |lines| - 1;
      var init := lines[..n];
      ScanReadable(init, num);
      assert lines == init + [lines[n]];
      ScanSnoc(init, lines[n], num);
      if Scan(init, num).Some? {
        RecordStep(Scan(init, num).value, lines[n], num, Unlabelled);
      }
      assert forall k :: 0 <= k < n ==> init[k] == lines[k];
    }
  }

  /** The last line with a label, among some lines and one more. */
  lemma LastSnoc(init: seq<string>, line: string, l: Label)
    ensures LastWith(init + [line], l) == if LabelOf(line) == l then Some(|init|) else LastWith(init, l)
  {
    var lines := init + [line];
    assert lines[..|lines| - 1] == init && lines[|lines| - 1] == line;
  }

  /** After a successful loop each label holds the value of the last line
      carrying it, or nothing if no line carries it. */
  lemma {:induction false} ScanField(lines: seq<string>, num: Reader, l: Label)
    requires Scan(lines, num).Some? && !l.Unlabelled?
    ensures Field(Scan(lines, num).value, l) == Value(lines, l, num)
  {
    if lines != [] {
      var n := |lines| - 1;
      var init := lines[..n];
      assert lines == init + [lines[n]];
      ScanSnoc(init, lines[n], num);
      ScanField(init, num, l);
      RecordStep(Scan(init, num).value, lines[n], num, l);
      LastSnoc(init, lines[n], l);
      if LastWith(init, l).Some? {
        assert lines[LastWith(init, l).value] == init[LastWith(init, l).value];
      }
    }
  }

  /** The report yields metrics exactly when every line is readable and a
      ping, a download and an upload line are all present; the metrics are
      the values on the last line of each kind. */
  lemma ParseReportSpec(stdout: string, num: Reader)
    ensures var lines := Split(Strip(stdout), "\n");
            var ping, down, up := Value(lines, PingLine, num), Value(lines, DownloadLine, num), Value(lines, UploadLine, num);
            ParseReport(stdout, num) ==
              if (forall k :: 0 <= k < |lines| ==> Readable(lines[k], num)) && ping.Some? && down.Some? && up.Some?
              then Some(Metrics(ping.value, down.value, up.value))
              else None
  {
    var lines := Split(Strip(stdout), "\n");
    ScanReadable(lines, num);
    if Scan(lines, num).Some? {
      ScanField(lines, num, PingLine);
      ScanField(lines, num, DownloadLine);
      ScanField(lines, num, UploadLine);
    }
  }

  /** A needle whose first character does not occur is not contained. */
  lemma Absent(s: string, needle: string)
    requires |needle| > 0 && needle[0] !in s
    ensures !Contains(s, needle)
  {
    forall i: nat | i <= |s|
      ensures !OccursAt(s, needle, i)
    {
      if i + |needle| <= |s| {
        assert s[i..i + |needle|][0] == s[i] != needle[0];
      }
    }
  }

  /** A token fit to stand in a `--simple` report line. */
  predicate PlainToken(t: string) {
    && t != []
    && (forall i :: 0 <= i < |t| ==> !IsSpace(t[i]))
    && ':' !in t && '\n' !in t && 'P' !in t && 'D' !in t && 'U' !in t
  }

  /** A line `<tag>: <token> <unit>`. */
  function LabelledLine(tag: string, t: string, unit: string): string {
    tag + ":" + " " + t + " " + unit
  }

  lemma {:induction false} LineReads(tag: string, t: string, unit: string, num: Reader)
    requires PlainToken(t) && ':' !in tag && ':' !in unit
    ensures Reading(LabelledLine(tag, t, unit), num) == num(t)
  {
    TokenAfterMarked(tag, ":", " ", t, " " + unit);
    assert LabelledLine(tag, t, unit) == tag + ":" + " " + t + (" " + unit);
  }

  lemma NoNewline(tag: string, t: string, unit: string)
    requires '\n' !in tag && '\n' !in t && '\n' !in unit
    ensures '\n' !in LabelledLine(tag, t, unit)
  {
  }

  /** The three lines of a `--simple` report. */
  function PingText(t: string): string { LabelledLine("Ping", t, "ms") }
  function DownloadText(t: string): string { LabelledLine("Download", t, "Mbit/s") }
  function UploadText(t: string): string { LabelledLine("Upload", t, "Mbit/s") }

  lemma PingLabelled(t: string)
    requires PlainToken(t)
    ensures LabelOf(PingText(t)) == PingLine
  {
    assert OccursAt(PingText(t), "Ping:", 0);
  }

  lemma DownloadLabelled(t: string)
    requires PlainToken(t)
    ensures LabelOf(DownloadText(t)) == DownloadLine
  {
    assert OccursAt(DownloadText(t), "Download:", 0);
    Absent(DownloadText(t), "Ping:");
  }

  lemma UploadLabelled(t: string)
    requires PlainToken(t)
    ensures LabelOf(UploadText(t)) == UploadLine
  {
    assert OccursAt(UploadText(t), "Upload:", 0);
    Absent(UploadText(t), "Ping:");
    Absent(UploadText(t), "Download:");
  }

  /** Lines labelled ping, download and upload, in that order, each with a
      readable value, give all three values. */
  lemma ThreeLines(pl: string, dl: string, ul: string, num: Reader)
    requires LabelOf(pl) == PingLine && LabelOf(dl) == DownloadLine && LabelOf(ul) == UploadLine
    requires Reading(pl, num).Some? && Reading(dl, num).Some? && Reading(ul, num).Some?
    ensures Scan([pl, dl, ul], num) == Some(Captured(Reading(pl, num), Reading(dl, num), Reading(ul, num)))
  {
    var lines := [pl, dl, ul];
    assert lines[..2][..1] == lines[..1] == [pl];
    assert [pl][..0] == [];
    assert Scan([pl], num) == Some(Captured(Reading(pl, num), None, None));
    assert lines[..2] == [pl, dl];
    assert Scan([pl, dl], num) == Some(Captured(Reading(pl, num), Reading(dl, num), None));
    assert lines[..3 - 1] == [pl, dl];
  }

  lemma JoinThree(a: string, b: string, c: string)
    ensures Join([a, b, c], "\n") == a + "\n" + b + "\n" + c
  {
    var lines := [a, b, c];
    assert lines[1..][1..] == [c];
    assert Join(lines[1..], "\n") == b + "\n" + c;
  }

  lemma StripNewline(body: string)
    requires body != [] && !IsSpace(body[0]) && !IsSpace(body[|body| - 1])
    ensures Strip(body + "\n") == body
  {
    assert body + "\n" == [] + body + "\n";
    StripPadded([], body, "\n");
  }

  /** Three newline-free lines ended by a newline split back into those
      lines once the report is stripped. */
  lemma ReportLines(pl: string, dl: string, ul: string)
    requires '\n' !in pl && '\n' !in dl && '\n' !in ul
    requires pl != [] && !IsSpace(pl[0]) && ul != [] && !IsSpace(ul[|ul| - 1])
    ensures Split(Strip(pl + "\n" + dl + "\n" + ul + "\n"), "\n") == [pl, dl, ul]
  {
    var body := pl + "\n" + dl + "\n" + ul;
    assert body[0] == pl[0] && body[|body| - 1] == ul[|ul| - 1];
    StripNewline(body);
    JoinThree(pl, dl, ul);
    SplitJoin([pl, dl, ul], '\n');
  }

  lemma PingFacts(p: string, num: Reader)
    requires PlainToken(p)
    ensures LabelOf(PingText(p)) == PingLine && Reading(PingText(p), num) == num(p)
    ensures '\n' !in PingText(p) && PingText(p) != [] && PingText(p)[0] == 'P'
  {
    LineReads("Ping", p, "ms", num);
    PingLabelled(p);
    NoNewline("Ping", p, "ms");
  }

  lemma DownloadFacts(d: string, num: Reader)
    requires PlainToken(d)
    ensures LabelOf(DownloadText(d)) == DownloadLine && Reading(DownloadText(d), num) == num(d)
    ensures '\n' !in DownloadText(d)
  {
    LineReads("Download", d, "Mbit/s", num);
    DownloadLabelled(d);
    NoNewline("Download", d, "Mbit/s");
  }

  lemma UploadFacts(u: string, num: Reader)
    requires PlainToken(u)
    ensures LabelOf(UploadText(u)) == UploadLine && Reading(UploadText(u), num) == num(u)
    ensures '\n' !in UploadText(u) && UploadText(u) != [] && UploadText(u)[|UploadText(u)| - 1] == 's'
  {
    LineReads("Upload", u, "Mbit/s", num);
    UploadLabelled(u);
    NoNewline("Upload", u, "Mbit/s");
  }

  /** The report `speedtest-cli --simple` prints yields the three values its
      numeric tokens read as. */
  lemma SimpleReport(p: string, d: string, u: string, num: Reader)
    requires PlainToken(p) && PlainToken(d) && PlainToken(u)
    requires num(p).Some? && num(d).Some? && num(u).Some?
    ensures RunSpeedTest(Completed(PingText(p) + "\n" + DownloadText(d) + "\n" + UploadText(u) + "\n"), num)
            == Some(Metrics(num(p).value, num(d).value, num(u).value))
  {
    var pl, dl, ul := PingText(p), DownloadText(d), UploadText(u);
    PingFacts(p, num);
    DownloadFacts(d, num);
    UploadFacts(u, num);
    ThreeLines(pl, dl, ul, num);
    ReportLines(pl, dl, ul);
  }
}
