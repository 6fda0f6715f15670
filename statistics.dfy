/** `Report_Requests.get_statistics`: the period a recipient asks for, the
    group's reports inside it, the absences counted per name, the names
    ranked by their count and the text sent back. */
module Statistics {
  import opened Wrappers
  import opened Text
  import opened Dates
  import opened Tables
  import opened Writes
  import opened Sorting
  import opened Seqs

  // ---------------------------------------------------------------------------
  // The period
  // ---------------------------------------------------------------------------

  const Week: string := "Неделя"
  const Month: string := "Месяц"
  const Year: string := "Год"

  /** One of the three periods offered on the keyboard. */
  predicate NamedPeriod(p: string) {
    p == Week || p == Month || p == Year
  }

  /** An inclusive range of days. */
  datatype Range = Range(from: Date, to: Date)

  /** Both ends are dates `strftime` can print. */
  predicate RangeOk(r: Range) {
    ValidDate(r.from) && ValidDate(r.to) && r.from.year <= 9999 && r.to.year <= 9999
  }

  /** The period of `get_statistics` and `get_file`: a named period runs from
      its start to `today` (the recipient's local date); any other `dateFrom`
      is read, with `dateTo`, as two "DD.MM.YYYY" dates, and a text that is
      not one raises `ValueError`, here `None`. */
  function ResolvePeriod(dateFrom: string, dateTo: string, today: Date): (r: Option<Range>)
    requires ValidDate(today) && today.year <= 9999
    ensures r.Some? ==> RangeOk(r.value)
    ensures NamedPeriod(dateFrom) ==> r.Some? && r.value.to == today && NotAfter(r.value.from, today)
    ensures dateFrom == Week ==> Weekday(r.value.from) == 0 && Ordinal(today) - 6 <= Ordinal(r.value.from)
    ensures dateFrom == Month ==> r.value.from == Date(today.year, today.month, 1)
    ensures dateFrom == Year ==> r.value.from == Date(today.year, 1, 1)
    ensures !NamedPeriod(dateFrom) ==> (r.Some? <==> ParseDate(dateFrom).Some? && ParseDate(dateTo).Some?)
    ensures !NamedPeriod(dateFrom) && r.Some? ==>
              FormatDate(r.value.from) == dateFrom && FormatDate(r.value.to) == dateTo
  {
    if dateFrom == Week then Some(Range(StartOfWeek(today), today))
    else if dateFrom == Month then Some(Range(StartOfMonth(today), today))
    else if dateFrom == Year then Some(Range(StartOfYear(today), today))
    else
      match (ParseDate(dateFrom), ParseDate(dateTo))
      case (Some(f), Some(t)) =>
        FormatParse(dateFrom);
        FormatParse(dateTo);
        Some(Range(f, t))
      case _ => None
  }

  /** The rows the query selects: the group's reports dated from `from` to
      `to`, both included. */
  predicate InRange(x: Report, id: int, range: Range) {
    x.group == id && NotAfter(range.from, x.date) && NotAfter(x.date, range.to)
  }

  /** The selected reports, in row order. */
  function Selected(reports: seq<Report>, id: int, range: Range): (s: seq<Report>)
    ensures forall x :: x in s <==> x in reports && InRange(x, id, range)
    ensures |s| <= |reports|
  {
    if reports == [] then []
    else (if InRange(reports[0], id, range) then [reports[0]] else []) + Selected(reports[1..], id, range)
  }

  // ---------------------------------------------------------------------------
  // Counting
  // ---------------------------------------------------------------------------

  /** A key of `reports_with_member` and its value. */
  datatype Entry = Entry(name: string, count: nat)

  function Keys(t: seq<Entry>): (r: seq<string>)
    ensures |r| == |t|
    ensures forall i :: 0 <= i < |t| ==> r[i] == t[i].name
  {
    if t == [] then [] else [t[0].name] + Keys(t[1..])
  }

  /** `d.get(name, 0)` on the dict the entries stand for. */
  function CountOf(t: seq<Entry>, name: string): nat {
    if t == [] then 0
    else if t[0].name == name then t[0].count
    else CountOf(t[1..], name)
  }

  /** `if name not in d: d[name] = 0`, then `d[name] += 1`: a dict keeps its
      keys in insertion order, so a new name goes last. */
  function Bump(t: seq<Entry>, name: string): (r: seq<Entry>)
    ensures Keys(r) == if name in Keys(t) then Keys(t) else Keys(t) + [name]
    ensures forall k :: CountOf(r, k) == CountOf(t, k) + (if k == name then 1 else 0)
    ensures forall e :: e in r ==> e in t || e == Entry(name, CountOf(t, name) + 1)
  {
    if t == [] then [Entry(name, 1)]
    else if t[0].name == name then
      assert Keys([Entry(name, t[0].count + 1)] + t[1..]) == [name] + Keys(t[1..]);
      [Entry(name, t[0].count + 1)] + t[1..]
    else
      var rest := Bump(t[1..], name);
      assert Keys([t[0]] + rest) == [t[0].name] + Keys(rest);
      assert t == [t[0]] + t[1..];
      [t[0]] + rest
  }

  /** Bumping each of `names` in turn. */
  function BumpAll(t: seq<Entry>, names: seq<string>): seq<Entry>
    decreases |names|
  {
    if names == [] then t
    else Bump(BumpAll(t, names[..|names| - 1]), names[|names| - 1])
  }

  /** The names one report lists: `split(";\n")`, where the single piece ""
      (the report that names nobody) is skipped. */
  function Absent(x: Report): seq<string> {
    var names := Split(x.members, Sep);
    if names == [""] then [] else names
  }

  /** The skipped report is exactly the one whose stored list is empty. */
  lemma AbsentMembers(x: Report)
    ensures Absent(x) == Members(x.members)
  {
    RawSplit(x.members);
    SplitIsEmptyPiece(x.members, Sep);
  }

  /** `reports_with_member` after the loop over `rs`. */
  function Tally(rs: seq<Report>): seq<Entry>
    decreases |rs|
  {
    if rs == [] then []
    else BumpAll(Tally(rs[..|rs| - 1]), Absent(rs[|rs| - 1]))
  }

  /** Every name the reports list, report after report. */
  function AllAbsent(rs: seq<Report>): seq<string>
    decreases |rs|
  {
    if rs == [] then []
    else AllAbsent(rs[..|rs| - 1]) + Absent(rs[|rs| - 1])
  }

  /** The loop of `get_statistics`: `total` counts every selected report,
      the tally every name the non-empty ones list. */
  method CountAbsences(selected: seq<Report>) returns (total: nat, tally: seq<Entry>)
    ensures total == |selected|
    ensures tally == Tally(selected)
  {
    total := 0;
    tally := [];
    var i := 0;
    while i < |selected|
      invariant 0 <= i <= |selected|
      invariant total == i
      invariant tally == Tally(selected[..i])
    {
      total := total + 1;
      var names := Split(selected[i].members, Sep);
      TallyStep(selected, i);
      if names != [""] {
        tally := BumpNames(tally, names);
      }
      i := i + 1;
    }
    assert selected[..|selected|] == selected;
  }

  /** The inner loop: one bump per listed name, in list order. */
  method BumpNames(t: seq<Entry>, names: seq<string>) returns (tally: seq<Entry>)
    ensures tally == BumpAll(t, names)
  {
    tally := t;
    var j := 0;
    while j < |names|
      invariant 0 <= j <= |names|
      invariant tally == BumpAll(t, names[..j])
    {
      assert names[..j + 1][..j] == names[..j];
      tally := Bump(tally, names[j]);
      j := j + 1;
    }
    assert names[..|names|] == names;
  }

  lemma TallyStep(rs: seq<Report>, i: nat)
    requires i < |rs|
    ensures Tally(rs[..i + 1]) == BumpAll(Tally(rs[..i]), Absent(rs[i]))
  {
    assert rs[..i + 1][..i] == rs[..i];
  }

  // ---------------------------------------------------------------------------
  // What the tally means
  // ---------------------------------------------------------------------------

  /** The distinct names of `names`, in the order each first appears. */
  function FirstSeen(names: seq<string>): seq<string>
    decreases |names|
  {
    if names == [] then []
    else
      var r := FirstSeen(names[..|names| - 1]);
      var x := names[|names| - 1];
      if x in r then r else r + [x]
  }

  lemma IndexOfUnique<T>(xs: seq<T>, x: T, k: nat)
    requires k < |xs| && xs[k] == x && x !in xs[..k]
    ensures IndexOf(xs, x) == k
  {
    var m := IndexOf(xs, x);
    forall j | 0 <= j < k ensures xs[j] != x {
      assert xs[..k][j] == xs[j];
    }
    forall j | 0 <= j < m ensures xs[j] != x {
      assert xs[..m][j] == xs[j];
    }
  }

  lemma IndexOfPrefix<T>(xs: seq<T>, y: T, x: T)
    requires x in xs
    ensures IndexOf(xs + [y], x) == IndexOf(xs, x)
  {
    var k := IndexOf(xs, x);
    assert (xs + [y])[..k] == xs[..k];
    IndexOfUnique(xs + [y], x, k);
  }

  /** FirstSeen holds each listed name once, and orders the names by the
      position where each first occurs. */
  lemma {:induction false} FirstSeenSpec(names: seq<string>)
    ensures Distinct(FirstSeen(names))
    ensures forall x :: x in FirstSeen(names) <==> x in names
    ensures forall i, j :: 0 <= i < j < |FirstSeen(names)| ==>
              IndexOf(names, FirstSeen(names)[i]) < IndexOf(names, FirstSeen(names)[j])
    decreases |names|
  {
    if names != [] {
      var init := names[..|names| - 1];
      var x := names[|names| - 1];
      assert names == init + [x];
      FirstSeenSpec(init);
      var r0 := FirstSeen(init);
      var r := FirstSeen(names);
      forall y | y in init ensures IndexOf(names, y) == IndexOf(init, y) {
        IndexOfPrefix(init, x, y);
      }
      if x !in r0 {
        assert r == r0 + [x];
        assert names[..|init|] == init;
        IndexOfUnique(names, x, |init|);
        forall i, j | 0 <= i < j < |r|
          ensures IndexOf(names, r[i]) < IndexOf(names, r[j])
        {
          if j == |r0| {
            assert r[i] == r0[i] && r0[i] in init;
          } else {
            assert r[i] == r0[i] && r[j] == r0[j];
          }
        }
      }
    }
  }

  lemma {:induction false} BumpAllAppend(t: seq<Entry>, a: seq<string>, b: seq<string>)
    ensures BumpAll(t, a + b) == BumpAll(BumpAll(t, a), b)
    decreases |b|
  {
    if b == [] {
      AppendNil(a);
    } else {
      var b0 := b[..|b| - 1];
      BumpAllAppend(t, a, b0);
      AppendInit(a, b);
    }
  }

  /** The tally is the bumping of every listed name, in order. */
  lemma {:induction false} TallyFlat(rs: seq<Report>)
    ensures Tally(rs) == BumpAll([], AllAbsent(rs))
    decreases |rs|
  {
    if rs != [] {
      TallyFlat(rs[..|rs| - 1]);
      BumpAllAppend([], AllAbsent(rs[..|rs| - 1]), Absent(rs[|rs| - 1]));
    }
  }

  lemma {:induction false} BumpAllKeys(names: seq<string>)
    ensures Keys(BumpAll([], names)) == FirstSeen(names)
    decreases |names|
  {
    if names != [] {
      BumpAllKeys(names[..|names| - 1]);
    }
  }

  lemma {:induction false} BumpAllCount(t: seq<Entry>, names: seq<string>, k: string)
    ensures CountOf(BumpAll(t, names), k) == CountOf(t, k) + multiset(names)[k]
    decreases |names|
  {
    if names != [] {
      var init, last := names[..|names| - 1], names[|names| - 1];
      BumpAllCount(t, init, k);
      SnocMultiset(names);
      assert multiset(names)[k] == multiset(init)[k] + (if k == last then 1 else 0);
    }
  }

  /** In a table of distinct keys an entry's count is the count of its name. */
  lemma {:induction false} EntryCount(t: seq<Entry>, e: Entry)
    requires Distinct(Keys(t)) && e in t
    ensures CountOf(t, e.name) == e.count
    decreases |t|
  {
    if t[0].name == e.name {
      var k :| 0 <= k < |t| && t[k] == e;
      assert Keys(t)[k] == Keys(t)[0];
      assert k == 0;
    } else {
      assert e in t[1..];
      assert Keys(t[1..]) == Keys(t)[1..];
      EntryCount(t[1..], e);
    }
  }

  /** What the tally of the selected reports holds: each listed name once,
      in the order of first appearance, with the number of times the
      reports list it. */
  lemma TallyMeaning(rs: seq<Report>)
    ensures Keys(Tally(rs)) == FirstSeen(AllAbsent(rs))
    ensures Distinct(Keys(Tally(rs)))
    ensures forall e :: e in Tally(rs) ==>
              e.name in AllAbsent(rs) && e.count == multiset(AllAbsent(rs))[e.name]
  {
    var t := Tally(rs);
    TallyFlat(rs);
    BumpAllKeys(AllAbsent(rs));
    FirstSeenSpec(AllAbsent(rs));
    forall e | e in t
      ensures e.name in AllAbsent(rs) && e.count == multiset(AllAbsent(rs))[e.name]
    {
      var k :| 0 <= k < |t| && t[k] == e;
      assert Keys(t)[k] == e.name;
      EntryCount(t, e);
      BumpAllCount([], AllAbsent(rs), e.name);
    }
  }

  /** The reports among `rs` that list `name`. */
  function Listing(rs: seq<Report>, name: string): seq<Report>
    decreases |rs|
  {
    if rs == [] then []
    else Listing(rs[..|rs| - 1], name) + (if name in Absent(rs[|rs| - 1]) then [rs[|rs| - 1]] else [])
  }

  lemma {:induction false} DistinctCount(xs: seq<string>, x: string)
    requires Distinct(xs)
    ensures multiset(xs)[x] == if x in xs then 1 else 0
    decreases |xs|
  {
    if xs != [] {
      assert xs == [xs[0]] + xs[1..];
      DistinctCount(xs[1..], x);
    }
  }

  /** Where no report lists a name twice, a name's count is the number of
      selected reports that list it. */
  lemma {:induction false} CountIsReports(rs: seq<Report>, name: string)
    requires forall i :: 0 <= i < |rs| ==> Distinct(Absent(rs[i]))
    ensures multiset(AllAbsent(rs))[name] == |Listing(rs, name)|
    decreases |rs|
  {
    if rs != [] {
      var last := rs[|rs| - 1];
      CountIsReports(rs[..|rs| - 1], name);
      DistinctCount(Absent(last), name);
    }
  }

  // ---------------------------------------------------------------------------
  // Ranking and the text
  // ---------------------------------------------------------------------------

  function NegCount(e: Entry): int {
    -(e.count as int)
  }

  /** `sorted(d.items(), key=count, reverse=True)`: Python's sort is stable
      also when reversed, which is a stable ascending sort on `-count`. */
  function Rank(tally: seq<Entry>): seq<Entry> {
    SortBy(tally, NegCount)
  }

  /** Each ranked entry carries its name's number of listings. */
  lemma RankCounts(rs: seq<Report>)
    ensures forall i :: 0 <= i < |Rank(Tally(rs))| ==>
              Rank(Tally(rs))[i].count == multiset(AllAbsent(rs))[Rank(Tally(rs))[i].name] >= 1
  {
    var r := Rank(Tally(rs));
    TallyMeaning(rs);
    forall i | 0 <= i < |r|
      ensures r[i].count == multiset(AllAbsent(rs))[r[i].name] >= 1
    {
      assert r[i] in multiset(r);
    }
  }

  /** The entries of one count keep their tally order. */
  lemma RankStable(rs: seq<Report>)
    ensures forall c :: WithKey(Rank(Tally(rs)), NegCount, c) == WithKey(Tally(rs), NegCount, c)
  {
    forall c ensures WithKey(Rank(Tally(rs)), NegCount, c) == WithKey(Tally(rs), NegCount, c) {
      SortByStable(Tally(rs), NegCount, c);
    }
  }

  /** Nothing is ranked exactly when nobody was listed. */
  lemma RankEmpty(rs: seq<Report>)
    ensures |Rank(Tally(rs))| == 0 <==> AllAbsent(rs) == []
  {
    TallyMeaning(rs);
    FirstSeenSpec(AllAbsent(rs));
    if AllAbsent(rs) != [] {
      assert AllAbsent(rs)[0] in FirstSeen(AllAbsent(rs));
    }
  }

  /** The ranking keeps the entries, puts larger counts first and leaves the
      entries of one count in tally order, that is, in the order their names
      first appear. */
  lemma RankMeaning(rs: seq<Report>)
    ensures multiset(Rank(Tally(rs))) == multiset(Tally(rs))
    ensures forall i, j :: 0 <= i < j < |Rank(Tally(rs))| ==> Rank(Tally(rs))[i].count >= Rank(Tally(rs))[j].count
    ensures forall i :: 0 <= i < |Rank(Tally(rs))| ==>
              Rank(Tally(rs))[i].count == multiset(AllAbsent(rs))[Rank(Tally(rs))[i].name] >= 1
    ensures forall c :: WithKey(Rank(Tally(rs)), NegCount, c) == WithKey(Tally(rs), NegCount, c)
    ensures |Rank(Tally(rs))| == 0 <==> AllAbsent(rs) == []
  {
    var r := Rank(Tally(rs));
    assert SortedBy(r, NegCount);
    RankCounts(rs);
    RankStable(rs);
    RankEmpty(rs);
  }

  /** `int(count / total * 100)` on exact numbers: the percentage rounded
      down. */
  function Percent(count: nat, total: nat): (p: nat)
    requires total > 0
    ensures p * total <= count * 100 < (p + 1) * total
    ensures count <= total ==> p <= 100
  {
    (count * 100) / total
  }

  /** Line `i` (from 0) of the statistics. */
  function Line(i: nat, e: Entry, total: nat): string
    requires total > 0
  {
    NatToString(i + 1) + ". " + e.name + " - Присутствовал в " + NatToString(e.count)
    + " отчётах из " + NatToString(total) + " (" + NatToString(Percent(e.count, total)) + "%)"
  }

  function Lines(ranked: seq<Entry>, total: nat): (r: seq<string>)
    requires total > 0
    ensures |r| == |ranked|
    ensures forall i :: 0 <= i < |ranked| ==> r[i] == Line(i, ranked[i], total)
  {
    seq(|ranked|, i requires 0 <= i < |ranked| => Line(i, ranked[i], total))
  }

  /** "С <from> по <to> в группе "<name>"" */
  function Span(groupName: string, range: Range): string
    requires RangeOk(range)
  {
    "С " + FormatDate(range.from) + " по " + FormatDate(range.to) + " в группе \"" + groupName + "\""
  }

  function NoReportsText(groupName: string, range: Range): string
    requires RangeOk(range)
  {
    Span(groupName, range) + " не создавалось отчётов об отсутствии."
  }

  function NoAbsenteesText(groupName: string, range: Range): string
    requires RangeOk(range)
  {
    Span(groupName, range) + " отсутствующих не было."
  }

  function StatisticsHeader(groupName: string, range: Range): string
    requires RangeOk(range)
  {
    "Статистика отсутствия участников группы \"" + groupName + "\" с "
    + FormatDate(range.from) + " по " + FormatDate(range.to) + ":\n"
  }

  /** The answer for `total` selected reports and the ranked tally. */
  function StatisticsText(groupName: string, range: Range, total: nat, ranked: seq<Entry>): string
    requires RangeOk(range)
  {
    if total == 0 then NoReportsText(groupName, range)
    else if ranked == [] then NoAbsenteesText(groupName, range)
    else StatisticsHeader(groupName, range) + Join(Lines(ranked, total), Sep) + "."
  }

  /** The first `i` lines as the loop writes them: each line followed by
      `";\n"`, the last one by ".". */
  function Written(lines: seq<string>, i: nat): string
    requires i <= |lines|
  {
    if i == 0 then ""
    else Written(lines, i - 1) + lines[i - 1] + (if i < |lines| then Sep else ".")
  }

  /** Written out in full, the lines are joined by `";\n"` and closed by ".". */
  lemma {:induction false} WrittenJoin(lines: seq<string>, i: nat)
    requires 0 < i <= |lines|
    ensures Written(lines, i) == Join(lines[..i], Sep) + (if i < |lines| then Sep else ".")
  {
    if i == 1 {
      assert lines[..1] == [lines[0]];
    } else {
      WrittenJoin(lines, i - 1);
      JoinSnoc(lines[..i - 1], lines[i - 1], Sep);
      assert lines[..i] == lines[..i - 1] + [lines[i - 1]];
    }
  }

  /** The text loop of `get_statistics`: line after line, `";\n"` after
      each line but the last, "." after the last. */
  method WriteLines(ranked: seq<Entry>, total: nat) returns (body: string)
    requires total > 0
    ensures body == Written(Lines(ranked, total), |ranked|)
  {
    ghost var lines := Lines(ranked, total);
    body := "";
    var i := 0;
    while i < |ranked|
      invariant 0 <= i <= |ranked|
      invariant body == Written(lines, i)
    {
      body := body + Line(i, ranked[i], total);
      if i < |ranked| - 1 {
        body := body + Sep;
      } else {
        body := body + ".";
      }
      i := i + 1;
    }
  }

  /** The answer of `get_statistics` for the counted reports. */
  method FormatStatistics(groupName: string, range: Range, total: nat, ranked: seq<Entry>) returns (text: string)
    requires RangeOk(range)
    ensures text == StatisticsText(groupName, range, total, ranked)
  {
    if total == 0 {
      return NoReportsText(groupName, range);
    }
    if |ranked| == 0 {
      return NoAbsenteesText(groupName, range);
    }
    var body := WriteLines(ranked, total);
    text := StatisticsHeader(groupName, range) + body;
    WrittenJoin(Lines(ranked, total), |ranked|);
    assert Lines(ranked, total)[..|ranked|] == Lines(ranked, total);
  }

  /** `get_statistics` once the group and the period are known. */
  function StatisticsFor(groupName: string, reports: seq<Report>, id: int, range: Range): string
    requires RangeOk(range)
  {
    var selected := Selected(reports, id, range);
    StatisticsText(groupName, range, |selected|, Rank(Tally(selected)))
  }

  /** No report in the period: the "no reports" answer. */
  lemma StatisticsNoReports(groupName: string, reports: seq<Report>, id: int, range: Range)
    requires RangeOk(range)
    ensures (StatisticsFor(groupName, reports, id, range) == NoReportsText(groupName, range))
              <==> (forall x :: x in reports ==> !InRange(x, id, range))
  {
    var s := Selected(reports, id, range);
    if s != [] {
      assert s[0] in s;
      NoReportsDiffers(groupName, range, |s|, Rank(Tally(s)));
    }
  }

  /** A period with reports never gets the "no reports" answer. */
  lemma NoReportsDiffers(groupName: string, range: Range, total: nat, ranked: seq<Entry>)
    requires RangeOk(range) && total > 0
    ensures StatisticsText(groupName, range, total, ranked) != NoReportsText(groupName, range)
  {
    var b := NoReportsText(groupName, range);
    SpanSecond(groupName, range, " не создавалось отчётов об отсутствии.");
    if ranked == [] {
      AfterSpan(Span(groupName, range), " отсутствующих не было.", " не создавалось отчётов об отсутствии.");
    } else {
      HeaderSecond(groupName, range, Join(Lines(ranked, total), Sep) + ".");
      assert StatisticsText(groupName, range, total, ranked)
          == StatisticsHeader(groupName, range) + (Join(Lines(ranked, total), Sep) + ".");
    }
  }

  /** Texts that share a prefix differ where their tails do. */
  lemma AfterSpan(p: string, x: string, y: string)
    requires |x| > 1 && |y| > 1 && x[1] != y[1]
    ensures p + x != p + y
  {
    assert (p + x)[|p| + 1] == x[1];
    assert (p + y)[|p| + 1] == y[1];
  }

  /** The second letter of a text opening with the period span. */
  lemma SpanSecond(groupName: string, range: Range, rest: string)
    requires RangeOk(range)
    ensures (Span(groupName, range) + rest)[1] == ' '
  {
    var lead := "С ";
    assert Span(groupName, range) == lead + (FormatDate(range.from) + " по " + FormatDate(range.to) + " в группе \"" + groupName + "\"");
  }

  /** The second letter of a text opening with the statistics header. */
  lemma HeaderSecond(groupName: string, range: Range, rest: string)
    requires RangeOk(range)
    ensures (StatisticsHeader(groupName, range) + rest)[1] == 'т'
  {
    var lead := "Статистика отсутствия участников группы \"";
    assert StatisticsHeader(groupName, range)
        == lead + (groupName + "\" с " + FormatDate(range.from) + " по " + FormatDate(range.to) + ":\n");
  }

  /** Reports in the period that all name nobody: the "no absentees"
      answer. */
  lemma StatisticsNoAbsentees(groupName: string, reports: seq<Report>, id: int, range: Range)
    requires RangeOk(range)
    requires Selected(reports, id, range) != []
    requires forall x :: x in reports && InRange(x, id, range) ==> x.members == ""
    ensures StatisticsFor(groupName, reports, id, range) == NoAbsenteesText(groupName, range)
  {
    var s := Selected(reports, id, range);
    forall i | 0 <= i < |s| ensures s[i].members == "" {
      assert s[i] in s;
    }
    NoNames(s);
    RankMeaning(s);
  }

  lemma {:induction false} NoNames(rs: seq<Report>)
    requires forall i :: 0 <= i < |rs| ==> rs[i].members == ""
    ensures AllAbsent(rs) == []
    decreases |rs|
  {
    if rs != [] {
      NoNames(rs[..|rs| - 1]);
      AbsentMembers(rs[|rs| - 1]);
    }
  }
}
