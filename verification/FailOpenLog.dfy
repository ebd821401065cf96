/** Logging of fail-open events, at most one line per kind per minute with a count of
    the rest (backend/src/middleware/rate_limit.py, backend/src/portal/login_limits.py).
    The clock is monotonic. */
module FailOpenLog {
  import Sequences

  const LOG_INTERVAL_SECONDS: nat := 60

  datatype Line = Line(kind: string, at: nat, suppressed: nat)

  /** The two module dictionaries, and the lines written so far. */
  datatype Book = Book(lastLogged: map<string, nat>, suppressed: map<string, nat>, lines: seq<Line>) {
    function Pending(kind: string): nat { if kind in suppressed then suppressed[kind] else 0 }
  }

  const EMPTY := Book(map[], map[], [])

  datatype Call = Call(kind: string, at: nat)

  predicate TooSoon(b: Book, c: Call) {
    c.kind in b.lastLogged && c.at < b.lastLogged[c.kind] + LOG_INTERVAL_SECONDS
  }

  function Record(b: Book, c: Call): Book {
    if TooSoon(b, c) then b.(suppressed := b.suppressed[c.kind := b.Pending(c.kind) + 1])
    else Book(b.lastLogged[c.kind := c.at], b.suppressed - {c.kind},
              b.lines + [Line(c.kind, c.at, b.Pending(c.kind))])
  }

  function RecordAll(b: Book, calls: seq<Call>): Book
    decreases |calls|
  {
    if calls == [] then b else Record(RecordAll(b, calls[..|calls| - 1]), calls[|calls| - 1])
  }

  predicate Ordered(calls: seq<Call>) {
    forall i, j | 0 <= i < j < |calls| :: calls[i].at <= calls[j].at
  }

  function CallsOf(kind: string, calls: seq<Call>): nat {
    if calls == [] then 0
    else CallsOf(kind, calls[..|calls| - 1]) + if calls[|calls| - 1].kind == kind then 1 else 0
  }

  /** What the lines of a kind account for: one call each, and the calls they report. */
  function Accounted(kind: string, lines: seq<Line>): nat {
    if lines == [] then 0
    else
      var last := lines[|lines| - 1];
      Accounted(kind, lines[..|lines| - 1]) + if last.kind == kind then 1 + last.suppressed else 0
  }

  predicate LinesSpaced(lines: seq<Line>) {
    forall i, j | 0 <= i < j < |lines| && lines[i].kind == lines[j].kind ::
      lines[i].at + LOG_INTERVAL_SECONDS <= lines[j].at
  }

  /** lastLogged holds the time of the newest line of each kind. */
  predicate LastIsNewest(b: Book) {
    forall l <- b.lines :: l.kind in b.lastLogged && l.at <= b.lastLogged[l.kind]
  }

  ghost predicate LastIsALine(b: Book) {
    forall kind <- b.lastLogged.Keys :: exists l <- b.lines :: l.kind == kind && l.at == b.lastLogged[kind]
  }

  /** No call is lost: every call of a kind is a line, counted on a line, or still pending,
      in any run of calls of any kinds. */
  lemma NoCallIsLost(kind: string, calls: seq<Call>)
    ensures var b := RecordAll(EMPTY, calls);
            |set i | 0 <= i < |calls| && calls[i].kind == kind| == Accounted(kind, b.lines) + b.Pending(kind)
  {
    CallsAccounted(kind, calls);
    CallsAre(kind, calls);
  }

  /** A line accounts for its own call and those it reports. */
  lemma AccountedMore(kind: string, lines: seq<Line>, line: Line)
    ensures Accounted(kind, []) == 0
    ensures Accounted(kind, lines + [line])
            == Accounted(kind, lines) + if line.kind == kind then 1 + line.suppressed else 0
  {
    assert (lines + [line])[..|lines|] == lines;
  }

  lemma {:induction false} CallsAre(kind: string, calls: seq<Call>)
    ensures CallsOf(kind, calls) == |set i | 0 <= i < |calls| && calls[i].kind == kind|
    decreases |calls|
  {
    if calls != [] {
      var n := |calls| - 1;
      CallsAre(kind, calls[..n]);
      Sequences.OneMoreIndex((set i | 0 <= i < |calls[..n]| && calls[..n][i].kind == kind),
                             (set i | 0 <= i < |calls| && calls[i].kind == kind), n, calls[n].kind == kind);
    }
  }

  lemma {:induction false} CallsAccounted(kind: string, calls: seq<Call>)
    ensures var b := RecordAll(EMPTY, calls);
            CallsOf(kind, calls) == Accounted(kind, b.lines) + b.Pending(kind)
    decreases |calls|
  {
    if calls != [] {
      CallsAccounted(kind, calls[..|calls| - 1]);
      var b, c := RecordAll(EMPTY, calls[..|calls| - 1]), calls[|calls| - 1];
      if !TooSoon(b, c) {
        var lines := Record(b, c).lines;
        assert lines[..|lines| - 1] == b.lines;
      }
    }
  }

  /** Lines of one kind are at least a minute apart. */
  lemma LinesAreSpaced(calls: seq<Call>)
    requires Ordered(calls)
    ensures var lines := RecordAll(EMPTY, calls).lines;
            forall i, j | 0 <= i < j < |lines| && lines[i].kind == lines[j].kind :: lines[i].at + 60 <= lines[j].at
  {
    RunKeepsSpacing(calls);
  }

  lemma {:induction false} RunKeepsSpacing(calls: seq<Call>)
    requires Ordered(calls)
    ensures var b := RecordAll(EMPTY, calls);
            && LinesSpaced(b.lines) && LastIsNewest(b)
            && (forall kind <- b.lastLogged.Keys :: calls != [] && b.lastLogged[kind] <= calls[|calls| - 1].at)
    decreases |calls|
  {
    if calls != [] {
      RunKeepsSpacing(calls[..|calls| - 1]);
      RecordKeepsSpacing(RecordAll(EMPTY, calls[..|calls| - 1]), calls[|calls| - 1]);
    }
  }

  lemma RecordKeepsSpacing(b: Book, c: Call)
    requires LinesSpaced(b.lines) && LastIsNewest(b)
    requires forall kind <- b.lastLogged.Keys :: b.lastLogged[kind] <= c.at
    ensures var after := Record(b, c);
            && LinesSpaced(after.lines) && LastIsNewest(after)
            && (forall kind <- after.lastLogged.Keys :: after.lastLogged[kind] <= c.at)
  {}

  predicate HasLine(lines: seq<Line>, c: Call) {
    exists i | 0 <= i < |lines| :: lines[i].kind == c.kind && lines[i].at <= c.at < lines[i].at + LOG_INTERVAL_SECONDS
  }

  lemma RecordWritesALine(b: Book, c: Call)
    requires LastIsALine(b)
    requires c.kind in b.lastLogged ==> b.lastLogged[c.kind] <= c.at
    ensures LastIsALine(Record(b, c)) && HasLine(Record(b, c).lines, c)
    ensures forall d :: HasLine(b.lines, d) ==> HasLine(Record(b, c).lines, d)
  {
    var after := Record(b, c);
    if TooSoon(b, c) {
      var l :| l in b.lines && l.kind == c.kind && l.at == b.lastLogged[c.kind];
    } else {
      assert after.lines[|b.lines|] == Line(c.kind, c.at, b.Pending(c.kind));
      forall d | HasLine(b.lines, d) ensures HasLine(after.lines, d) {
        var i :| 0 <= i < |b.lines| && b.lines[i].kind == d.kind
                 && b.lines[i].at <= d.at < b.lines[i].at + LOG_INTERVAL_SECONDS;
        assert after.lines[i] == b.lines[i];
      }
      forall kind <- after.lastLogged.Keys
        ensures exists l <- after.lines :: l.kind == kind && l.at == after.lastLogged[kind]
      {
        if kind != c.kind {
          var l :| l in b.lines && l.kind == kind && l.at == b.lastLogged[kind];
          assert l in after.lines;
        } else {
          assert after.lines[|b.lines|] in after.lines;
        }
      }
    }
  }

  /** And none is skipped for longer: every call has a line of its kind at its own time
      or less than a minute before. */
  lemma EveryCallHasALine(calls: seq<Call>, c: Call)
    requires Ordered(calls) && c in calls
    ensures var lines := RecordAll(EMPTY, calls).lines;
            exists i | 0 <= i < |lines| :: lines[i].kind == c.kind && lines[i].at <= c.at < lines[i].at + 60
  {
    EveryCallLogged(calls);
    var lines := RecordAll(EMPTY, calls).lines;
    assert HasLine(lines, c);
    var i :| 0 <= i < |lines| && lines[i].kind == c.kind && lines[i].at <= c.at < lines[i].at + LOG_INTERVAL_SECONDS;
    assert RecordAll(EMPTY, calls).lines[i] == lines[i];
  }

  lemma {:induction false} EveryCallLogged(calls: seq<Call>)
    requires Ordered(calls)
    ensures LastIsALine(RecordAll(EMPTY, calls))
    ensures forall c <- calls :: HasLine(RecordAll(EMPTY, calls).lines, c)
    decreases |calls|
  {
    if calls != [] {
      var init, c := calls[..|calls| - 1], calls[|calls| - 1];
      EveryCallLogged(init);
      var b := RecordAll(EMPTY, init);
      assert c.kind in b.lastLogged ==> b.lastLogged[c.kind] <= c.at by { RunKeepsSpacing(init); }
      RecordWritesALine(b, c);
      assert calls == init + [c];
    }
  }
}
