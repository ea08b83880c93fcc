/** The collector's browser-history pass: keep the entries of the history whose
    URL starts with "http" and whose day is today or later, then order them by
    their timestamp text, newest first.

    Python raises on some entries (a tuple too short to unpack, a timestamp
    without `strftime`); nothing in the pass catches it, so the pass ends and
    stores nothing. That outcome is `None`. */
module BrowserHistory {
  import opened Wrappers
  import opened Text
  import opened Sorting
  import opened Seqs
  import opened Tally

  /** A value with `strftime` (a `datetime`, `date` or `time`), reduced to its
      `%Y-%m-%d` and `%H:%M:%S` renderings; a `date` renders its time as
      00:00:00. */
  datatype DateTime = DateTime(date: string, time: string)

  /** `strftime('%Y-%m-%d %H:%M:%S')`. */
  function Stamp(dt: DateTime): string
  {
    dt.date + " " + dt.time
  }

  /** The Python values a history entry may hold; `PyOther` has no `strftime`. */
  datatype PyValue = PyStr(s: string) | PyDate(dt: DateTime) | PyNone | PyOther

  /** One element of `history.histories`. */
  datatype Entry = PyTuple(items: seq<PyValue>) | NotATuple

  /** The document stored for one kept entry. */
  datatype HistoryRow = HistoryRow(timestamp: string, url: string, title: PyValue)

  /** What the loop body does with one entry. */
  datatype EntryOutcome = Skip | Add(row: HistoryRow) | Abort

  /** `isinstance(url, str) and url.startswith('http')`. */
  predicate UrlOk(v: PyValue)
  {
    v.PyStr? && StartsWith(v.s, "http")
  }

  /** A tuple of exactly two items, `(timestamp, url)`. */
  predicate IsPair(e: Entry)
  {
    e.PyTuple? && |e.items| == 2
  }

  /** The loop body as written: `is_valid_entry` unpacks `entry[:3]` into three
      names, which raises for a two-item tuple; an accepted entry's timestamp is
      rendered with `strftime`, which raises when the value has none. */
  function OutcomeAsWritten(e: Entry, today: string): (r: EntryOutcome)
    ensures r.Abort? <==> IsPair(e) || (e.PyTuple? && |e.items| >= 3 && UrlOk(e.items[1]) && !e.items[0].PyDate?)
    ensures r.Add? ==>
              && e.PyTuple? && |e.items| >= 3 && UrlOk(e.items[1]) && e.items[0].PyDate?
              && StrLe(today, e.items[0].dt.date)
              && r.row == HistoryRow(Stamp(e.items[0].dt), e.items[1].s, e.items[2])
  {
    if e.PyTuple? && |e.items| >= 2 then
      if |e.items| < 3 then Abort
      else if !UrlOk(e.items[1]) then Skip
      else if !e.items[0].PyDate? then Abort
      else if StrLe(today, e.items[0].dt.date) then
        Add(HistoryRow(Stamp(e.items[0].dt), e.items[1].s, e.items[2]))
      else Skip
    else Skip
  }

  /** The loop body with `(timestamp, url)` pairs accepted: the title is `None`
      when the entry has none. */
  function Outcome(e: Entry, today: string): (r: EntryOutcome)
    ensures r.Abort? <==> e.PyTuple? && |e.items| >= 2 && UrlOk(e.items[1]) && !e.items[0].PyDate?
    ensures r.Add? ==>
              && e.PyTuple? && |e.items| >= 2 && UrlOk(e.items[1]) && e.items[0].PyDate?
              && StrLe(today, e.items[0].dt.date)
              && r.row.timestamp == Stamp(e.items[0].dt)
              && r.row.url == e.items[1].s
              && StartsWith(r.row.url, "http")
              && r.row.title == (if |e.items| >= 3 then e.items[2] else PyNone)
  {
    if e.PyTuple? && |e.items| >= 2 then
      if !UrlOk(e.items[1]) then Skip
      else if !e.items[0].PyDate? then Abort
      else if StrLe(today, e.items[0].dt.date) then
        Add(HistoryRow(Stamp(e.items[0].dt), e.items[1].s, if |e.items| >= 3 then e.items[2] else PyNone))
      else Skip
    else Skip
  }

  function AsWrittenBody(today: string): Entry -> EntryOutcome
  {
    e => OutcomeAsWritten(e, today)
  }

  function FixedBody(today: string): Entry -> EntryOutcome
  {
    e => Outcome(e, today)
  }

  /** The `for entry in history_data` loop: the rows appended, in history order,
      or `None` when some entry raises. */
  function Collect(history: seq<Entry>, body: Entry -> EntryOutcome): (r: Option<seq<HistoryRow>>)
    ensures r.None? <==> exists i :: 0 <= i < |history| && body(history[i]).Abort?
    ensures r.Some? ==> |r.value| <= |history|
    ensures r.Some? ==> forall row :: row in r.value <==> exists i :: 0 <= i < |history| && body(history[i]) == Add(row)
    decreases |history|
  {
    if |history| == 0 then Some([])
    else
      var pre := history[..|history| - 1];
      var e := history[|history| - 1];
      assert forall i :: 0 <= i < |pre| ==> pre[i] == history[i];
      match Collect(pre, body)
      case None => None
      case Some(rows) =>
        match body(e)
        case Abort => None
        case Skip => Some(rows)
        case Add(row) => Some(rows + [row])
  }

  /** One more entry adds its own row, if any, to the rows counted so far. */
  /** Each row is collected as many times as there are entries that add it. */
  lemma {:induction false} CollectCounts(history: seq<Entry>, body: Entry -> EntryOutcome)
    ensures Collect(history, body).Some? ==>
              forall row :: multiset(Collect(history, body).value)[row] == CountKey(history, body, Add(row))
    decreases |history|
  {
    if |history| > 0 && Collect(history, body).Some? {
      var pre := history[..|history| - 1];
      var e := history[|history| - 1];
      CollectCounts(pre, body);
      var rows := Collect(pre, body).value;
      var added := if body(e).Add? then [body(e).row] else [];
      assert Collect(history, body).value == rows + added;
      FrontLast(history);
      CountsStep(pre, e, body, rows, added);
    }
  }

  lemma CountsStep(pre: seq<Entry>, e: Entry, body: Entry -> EntryOutcome, rows: seq<HistoryRow>,
                   added: seq<HistoryRow>)
    requires forall row :: multiset(rows)[row] == CountKey(pre, body, Add(row))
    requires added == if body(e).Add? then [body(e).row] else []
    ensures forall row :: multiset(rows + added)[row] == CountKey(pre + [e], body, Add(row))
  {
    forall row ensures multiset(rows + added)[row] == CountKey(pre + [e], body, Add(row)) {
      CountKeySnoc(pre, e, body, Add(row));
    }
  }

  function TimestampOf(row: HistoryRow): string
  {
    row.timestamp
  }

  /** `retrieve_browser_history` as written, from the history list and today's
      `%Y-%m-%d`: the rows it inserts, newest timestamp first. */
  function RetrieveAsWritten(history: seq<Entry>, today: string): (r: Option<seq<HistoryRow>>)
    ensures r.None? <==> exists i :: 0 <= i < |history| && OutcomeAsWritten(history[i], today).Abort?
    ensures r.Some? ==> SortedDesc(r.value, TimestampOf)
    ensures r.Some? ==> forall row :: multiset(r.value)[row] == CountKey(history, AsWrittenBody(today), Add(row))
    ensures r.Some? ==> forall k :: Filter(HasKey(TimestampOf, k), r.value)
                                    == Filter(HasKey(TimestampOf, k), Collect(history, AsWrittenBody(today)).value)
  {
    CollectCounts(history, AsWrittenBody(today));
    SortedStable(Collect(history, AsWrittenBody(today)));
    match Collect(history, AsWrittenBody(today))
    case None => None
    case Some(rows) => Some(SortDesc(rows, TimestampOf))
  }

  /** The pass with pairs accepted: the rows it inserts are sorted newest first
      and are exactly the recent, `http` entries of the history. */
  function Retrieve(history: seq<Entry>, today: string): (r: Option<seq<HistoryRow>>)
    ensures r.None? <==> exists i :: 0 <= i < |history| && Outcome(history[i], today).Abort?
    ensures r.Some? ==> SortedDesc(r.value, TimestampOf)
    ensures r.Some? ==> forall row :: row in r.value <==> exists i :: 0 <= i < |history| && Outcome(history[i], today) == Add(row)
    ensures r.Some? ==> forall row :: multiset(r.value)[row] == CountKey(history, FixedBody(today), Add(row))
    ensures r.Some? ==> forall row :: row in r.value ==> StartsWith(row.url, "http")
    ensures r.Some? ==> forall k :: Filter(HasKey(TimestampOf, k), r.value)
                                    == Filter(HasKey(TimestampOf, k), Collect(history, FixedBody(today)).value)
  {
    CollectCounts(history, FixedBody(today));
    SortedStable(Collect(history, FixedBody(today)));
    match Collect(history, FixedBody(today))
    case None => None
    case Some(rows) =>
      var sorted := SortDesc(rows, TimestampOf);
      assert forall row :: row in sorted <==> row in rows by {
        forall row ensures row in sorted <==> row in rows {
          assert row in sorted <==> row in multiset(sorted);
          assert row in rows <==> row in multiset(rows);
        }
      }
      Some(sorted)
  }

  /** Rows with equal timestamps keep their collection order through the sort. */
  lemma SortedStable(rows: Option<seq<HistoryRow>>)
    ensures rows.Some? ==> forall k :: Filter(HasKey(TimestampOf, k), SortDesc(rows.value, TimestampOf))
                                       == Filter(HasKey(TimestampOf, k), rows.value)
  {
    if rows.Some? {
      forall k ensures Filter(HasKey(TimestampOf, k), SortDesc(rows.value, TimestampOf))
                       == Filter(HasKey(TimestampOf, k), rows.value) {
        SortDescStable(rows.value, TimestampOf, k);
      }
    }
  }

  /** Two loop bodies that agree on every entry collect the same rows. */
  lemma {:induction false} CollectAgrees(history: seq<Entry>, b1: Entry -> EntryOutcome, b2: Entry -> EntryOutcome)
    requires forall i :: 0 <= i < |history| ==> b1(history[i]) == b2(history[i])
    ensures Collect(history, b1) == Collect(history, b2)
    decreases |history|
  {
    if |history| > 0 {
      CollectAgrees(history[..|history| - 1], b1, b2);
    }
  }

  /** The two bodies differ only on two-item tuples. */
  lemma OutcomesAgree(e: Entry, today: string)
    requires !IsPair(e)
    ensures OutcomeAsWritten(e, today) == Outcome(e, today)
  {
  }

  /** On a history without two-item tuples the pass as written and the corrected
      one store the same rows. */
  lemma AsWrittenAgreesWithoutPairs(history: seq<Entry>, today: string)
    requires forall i :: 0 <= i < |history| ==> !IsPair(history[i])
    ensures RetrieveAsWritten(history, today) == Retrieve(history, today)
  {
    forall i | 0 <= i < |history|
      ensures AsWrittenBody(today)(history[i]) == FixedBody(today)(history[i])
    {
      OutcomesAgree(history[i], today);
    }
    CollectAgrees(history, AsWrittenBody(today), FixedBody(today));
  }

  /** One `(timestamp, url)` pair anywhere in the history makes the pass as
      written raise and store nothing at all. */
  lemma PairAbortsAsWritten(history: seq<Entry>, today: string, k: nat)
    requires k < |history| && IsPair(history[k])
    ensures RetrieveAsWritten(history, today).None?
  {
  }

  /** The corrected pass stores a recent `http` pair, with no title. */
  lemma PairStored(dt: DateTime, url: string, today: string)
    requires StartsWith(url, "http") && StrLe(today, dt.date)
    ensures Retrieve([PyTuple([PyDate(dt), PyStr(url)])], today) == Some([HistoryRow(Stamp(dt), url, PyNone)])
    ensures RetrieveAsWritten([PyTuple([PyDate(dt), PyStr(url)])], today).None?
  {
    var history := [PyTuple([PyDate(dt), PyStr(url)])];
    var row := HistoryRow(Stamp(dt), url, PyNone);
    assert history[..0] == [];
    assert Collect([], FixedBody(today)) == Some([]);
    assert FixedBody(today)(history[0]) == Add(row);
    assert [] + [row] == [row];
    assert history[|history| - 1] == history[0];
    assert Collect(history, FixedBody(today)) == Some([HistoryRow(Stamp(dt), url, PyNone)]);
    PairAbortsAsWritten(history, today, 0);
  }
}
