/**
 * What is left to run of a script that was stopped (`remainingAfterStop`), judged by what running it does: statements
 * are opaque texts of a kind, a database is any value, and a transaction works on a copy that COMMIT puts in its place.
 */
module Resume {
  import opened Wrappers

  /** How a statement's text is told: the three patterns of the source, and `trim`. */
  datatype Lang = Lang(isBegin: string -> bool, isEnd: string -> bool, isBuild: string -> bool, trim: string -> string)

  datatype StatementResult = StatementResult(statement: Option<int>, sql: string, error: bool)

  // ---------------------------------------------------------------------------------------------------------------
  // The statements still to run
  // ---------------------------------------------------------------------------------------------------------------

  /** Whether a result is of the statement at its position. */
  predicate Matches(lang: Lang, sql: seq<string>, r: StatementResult) {
    r.statement.Some? && 0 <= r.statement.value < |sql| && lang.trim(sql[r.statement.value]) == lang.trim(r.sql)
  }

  /** Where to go on from; None where it is not known. */
  function ResumeAt(lang: Lang, sql: seq<string>, results: seq<StatementResult>, resume: nat): Option<nat>
    decreases results
  {
    if results == [] then Some(resume)
    else
      var r := results[0];
      if !Matches(lang, sql, r) then None
      else if r.error then
        if lang.isEnd(sql[r.statement.value]) || lang.isBuild(sql[r.statement.value]) then None
        else Some(r.statement.value)
      else ResumeAt(lang, sql, results[1..], if resume >= r.statement.value + 1 then resume else r.statement.value + 1)
  }

  /** The last BEGIN with no COMMIT after it. */
  function OpenAt(lang: Lang, sql: seq<string>): (r: Option<nat>)
    ensures r.Some? ==> r.value < |sql| && lang.isBegin(sql[r.value])
  {
    if sql == [] then None
    else
      var n := |sql| - 1;
      if lang.isBegin(sql[n]) then Some(n) else if lang.isEnd(sql[n]) then None else OpenAt(lang, sql[..n])
  }

  method RemainingAfterStop(lang: Lang, sql: seq<string>, results: seq<StatementResult>) returns (r: Option<seq<string>>)
    ensures r == Remaining(lang, sql, results)
  {
    var resume: nat := 0;
    var i, cut := 0, false;
    while i < |results| && !cut
      invariant 0 <= i <= |results| && resume <= |sql|
      invariant ResumeAt(lang, sql, results, 0) == if cut then Some(resume) else ResumeAt(lang, sql, results[i..], resume)
      decreases |results| - i + if cut then 0 else 1
    {
      var at := results[i].statement;
      if at.None? || at.value < 0 || at.value >= |sql| || lang.trim(sql[at.value]) != lang.trim(results[i].sql) {
        return None;
      }
      if results[i].error {
        if lang.isEnd(sql[at.value]) || lang.isBuild(sql[at.value]) { return None; }
        resume := at.value;
        cut := true;
      } else {
        assert results[i..][1..] == results[i + 1..];
        resume := if resume >= at.value + 1 then resume else at.value + 1;
        i := i + 1;
      }
    }
    var open: Option<nat> := None;
    for k := 0 to resume
      invariant open == OpenAt(lang, sql[..k]) && (open.Some? ==> open.value < k)
    {
      assert sql[..k + 1][..k] == sql[..k];
      if lang.isBegin(sql[k]) { open := Some(k); } else if lang.isEnd(sql[k]) { open := None; }
    }
    r := Some(if open.Some? then sql[open.value..] else sql[resume..]);
  }

  function Remaining(lang: Lang, sql: seq<string>, results: seq<StatementResult>): Option<seq<string>> {
    var resume := ResumeAt(lang, sql, results, 0);
    if resume.None? || resume.value > |sql| then None
    else
      var open := OpenAt(lang, sql[..resume.value]);
      Some(if open.Some? then sql[open.value..] else sql[resume.value..])
  }

  // ---------------------------------------------------------------------------------------------------------------
  // Running a script
  // ---------------------------------------------------------------------------------------------------------------

  /** What is committed, and the copy a transaction works on while one is open. */
  datatype Session<D> = Session(db: D, tx: Option<D>)

  /** A second BEGIN, or a COMMIT with no transaction, changes nothing. */
  function Exec<D>(lang: Lang, effect: (string, D) -> D, s: Session<D>, stmt: string): Session<D> {
    if lang.isBegin(stmt) then if s.tx.None? then Session(s.db, Some(s.db)) else s
    else if lang.isEnd(stmt) then if s.tx.Some? then Session(s.tx.value, None) else s
    else if s.tx.Some? then Session(s.db, Some(effect(stmt, s.tx.value)))
    else Session(effect(stmt, s.db), None)
  }

  function Run<D>(lang: Lang, effect: (string, D) -> D, s: Session<D>, sql: seq<string>): Session<D>
    decreases |sql|
  {
    if sql == [] then s else Run(lang, effect, Exec(lang, effect, s, sql[0]), sql[1..])
  }

  /** A stop ends the connection: what was not committed is gone. */
  function RolledBack<D>(s: Session<D>): Session<D> {
    Session(s.db, None)
  }

  lemma {:induction false} RunSplits<D>(lang: Lang, effect: (string, D) -> D, s: Session<D>, a: seq<string>, b: seq<string>)
    ensures Run(lang, effect, s, a + b) == Run(lang, effect, Run(lang, effect, s, a), b)
    decreases |a|
  {
    if a == [] {
      assert a + b == b;
    } else {
      assert (a + b)[1..] == a[1..] + b;
      RunSplits(lang, effect, Exec(lang, effect, s, a[0]), a[1..], b);
    }
  }

  lemma RunOneMore<D>(lang: Lang, effect: (string, D) -> D, s: Session<D>, sql: seq<string>)
    requires sql != []
    ensures Run(lang, effect, s, sql) == Exec(lang, effect, Run(lang, effect, s, sql[..|sql| - 1]), sql[|sql| - 1])
  {
    var n := |sql| - 1;
    assert sql == sql[..n] + [sql[n]];
    RunSplits(lang, effect, s, sql[..n], [sql[n]]);
  }

  // ---------------------------------------------------------------------------------------------------------------
  // What a stop leaves
  // ---------------------------------------------------------------------------------------------------------------

  /**
   * The results of a script stopped after `k` statements: each of these gave at least one, of itself; the statement
   * cut short, if one was, gave the last one, an error, and did not take effect.
   */
  predicate StoppedAt(lang: Lang, sql: seq<string>, results: seq<StatementResult>, k: nat, cut: bool) {
    var done := if cut && |results| > 0 then results[..|results| - 1] else results;
    && k <= |sql|
    && (forall r <- done :: Matches(lang, sql, r) && r.statement.value < k && !r.error)
    && (forall i :: 0 <= i < k ==> exists r <- done :: r.statement == Some(i))
    && (cut ==> |results| > 0 && k < |sql| && Matches(lang, sql, results[|results| - 1])
                && results[|results| - 1].statement == Some(k) && results[|results| - 1].error)
  }

  /** Where the transaction that is open at the end began: the first BEGIN since the last COMMIT. */
  function BegunAt(lang: Lang, sql: seq<string>): (r: Option<nat>)
    ensures r.Some? ==> r.value < |sql| && lang.isBegin(sql[r.value])
  {
    if sql == [] then None
    else
      var n := |sql| - 1;
      var before := BegunAt(lang, sql[..n]);
      if lang.isBegin(sql[n]) then (if before.Some? then before else Some(n))
      else if lang.isEnd(sql[n]) then None else before
  }

  /** No BEGIN inside a transaction. */
  predicate NeverNested(lang: Lang, sql: seq<string>) {
    forall k :: 0 <= k < |sql| && lang.isBegin(sql[k]) ==> BegunAt(lang, sql[..k]).None?
  }

  /** Of what stands between the transaction's own BEGIN and the last one, nothing does anything. */
  predicate NothingBetween(lang: Lang, sql: seq<string>) {
    var begun, open := BegunAt(lang, sql), OpenAt(lang, sql);
    begun.Some? && open.Some? ==> forall j :: begun.value < j < open.value ==> lang.isBegin(sql[j])
  }

  lemma {:induction false} BothOpen(lang: Lang, sql: seq<string>)
    ensures var begun, open := BegunAt(lang, sql), OpenAt(lang, sql);
            (begun.Some? <==> open.Some?) && (begun.Some? ==> begun.value <= open.value)
    ensures NeverNested(lang, sql) ==> BegunAt(lang, sql) == OpenAt(lang, sql)
    decreases |sql|
  {
    if sql != [] {
      var n := |sql| - 1;
      BothOpen(lang, sql[..n]);
      if NeverNested(lang, sql) {
        forall k | 0 <= k < n && lang.isBegin(sql[..n][k]) ensures BegunAt(lang, sql[..n][..k]).None? {
          assert sql[..n][..k] == sql[..k];
        }
      }
    }
  }

  /** While a transaction is open nothing is committed. */
  lemma {:induction false} CommittedAtBegin<D>(lang: Lang, effect: (string, D) -> D, s: Session<D>, sql: seq<string>)
    requires s.tx.None?
    ensures var t, begun := Run(lang, effect, s, sql), BegunAt(lang, sql);
            (t.tx.Some? <==> begun.Some?)
            && (begun.Some? ==> Run(lang, effect, s, sql[..begun.value]) == Session(t.db, None))
    decreases |sql|
  {
    if sql != [] {
      var n := |sql| - 1;
      CommittedAtBegin(lang, effect, s, sql[..n]);
      RunOneMore(lang, effect, s, sql);
      var before := BegunAt(lang, sql[..n]);
      if before.Some? { assert sql[..n][..before.value] == sql[..before.value]; }
    }
  }

  /** Truthful results lead back to the statement cut short, or to the one after the last that ended. */
  lemma {:induction false} ResumeScan(lang: Lang, sql: seq<string>, results: seq<StatementResult>, k: nat, cut: bool, resume: nat)
    requires resume <= k <= |sql| && (cut ==> |results| > 0 && k < |sql|)
    requires var n := if cut then |results| - 1 else |results|;
             && (forall i :: 0 <= i < n ==> Matches(lang, sql, results[i]) && results[i].statement.value < k && !results[i].error)
             && (resume < k ==> exists i :: 0 <= i < n && results[i].statement == Some(k - 1))
             && (cut ==> Matches(lang, sql, results[n]) && results[n].statement == Some(k) && results[n].error)
    ensures ResumeAt(lang, sql, results, resume) ==
            if cut && (lang.isEnd(sql[k]) || lang.isBuild(sql[k])) then None else Some(k)
    decreases results
  {
    var n := if cut then |results| - 1 else |results|;
    if n > 0 {
      var at := results[0].statement.value;
      var next := if resume >= at + 1 then resume else at + 1;
      var rest := results[1..];
      assert forall i :: 0 <= i < |rest| ==> rest[i] == results[i + 1];
      if next < k {
        var i :| 0 <= i < n && results[i].statement == Some(k - 1);
        assert i > 0 && rest[i - 1].statement == Some(k - 1);
      }
      ResumeScan(lang, sql, rest, k, cut, next);
    }
  }

  /** Nothing is said to be left exactly where a COMMIT or a concurrent build was cut short. */
  lemma KnownUnlessCut(lang: Lang, sql: seq<string>, results: seq<StatementResult>, k: nat, cut: bool)
    requires StoppedAt(lang, sql, results, k, cut)
    ensures ResumeAt(lang, sql, results, 0) ==
            if cut && (lang.isEnd(sql[k]) || lang.isBuild(sql[k])) then None else Some(k)
    ensures Remaining(lang, sql, results).None? <==> cut && (lang.isEnd(sql[k]) || lang.isBuild(sql[k]))
  {
    var n := if cut then |results| - 1 else |results|;
    var done := if cut then results[..n] else results;
    forall i | 0 <= i < n
      ensures Matches(lang, sql, results[i]) && results[i].statement.value < k && !results[i].error
    {
      assert results[i] == done[i] && done[i] in done;
    }
    if k > 0 {
      var r :| r in done && r.statement == Some(k - 1);
      var i :| 0 <= i < |done| && done[i] == r;
      assert results[i].statement == Some(k - 1);
    }
    ResumeScan(lang, sql, results, k, cut, 0);
  }

  lemma {:induction false} OnlyBegins<D>(lang: Lang, effect: (string, D) -> D, db: D, sql: seq<string>)
    requires forall stmt <- sql :: lang.isBegin(stmt)
    ensures Run(lang, effect, Session(db, Some(db)), sql) == Session(db, Some(db))
    decreases |sql|
  {
    if sql != [] { OnlyBegins(lang, effect, db, sql[1..]); }
  }

  lemma Parts<T>(s: seq<T>, a: nat, b: nat, c: nat)
    requires a <= b <= c <= |s|
    ensures s[a..c] == s[a..b] + s[b..c] && s[a..] == s[a..b] + s[b..]
  {
  }

  /** Beginning again at the last BEGIN is beginning again at the first, if nothing was done between. */
  lemma SameBeginning<D>(lang: Lang, effect: (string, D) -> D, db: D, sql: seq<string>, begun: nat, open: nat)
    requires begun <= open < |sql| && lang.isBegin(sql[begun]) && lang.isBegin(sql[open])
    requires forall j :: begun < j < open ==> lang.isBegin(sql[j])
    ensures Run(lang, effect, Session(db, None), sql[open..]) == Run(lang, effect, Session(db, None), sql[begun..])
  {
    if begun < open {
      var s := Session(db, Some(db));
      var between := sql[begun + 1..open];
      assert sql[begun..][1..] == sql[begun + 1..];
      Parts(sql, begun + 1, open, |sql|);
      RunSplits(lang, effect, s, between, sql[open..]);
      OnlyBegins(lang, effect, db, between);
      assert Exec(lang, effect, s, sql[open]) == Exec(lang, effect, Session(db, None), sql[open]);
    }
  }

  /** Whether running the rest on what the stop left ends as the whole script does uninterrupted. */
  predicate EndsTheSame<D(==)>(lang: Lang, effect: (string, D) -> D, db: D, sql: seq<string>, k: nat, rest: seq<string>)
    requires k <= |sql|
  {
    var start := Session(db, None);
    Run(lang, effect, RolledBack(Run(lang, effect, start, sql[..k])), rest) == Run(lang, effect, start, sql)
  }

  lemma {:induction false} ResumesRightly<D>(lang: Lang, effect: (string, D) -> D, db: D, sql: seq<string>, k: nat)
    requires k <= |sql| && NothingBetween(lang, sql[..k])
    ensures var open := OpenAt(lang, sql[..k]);
            EndsTheSame(lang, effect, db, sql, k, if open.Some? then sql[open.value..] else sql[k..])
  {
    var start, done := Session(db, None), sql[..k];
    var t := Run(lang, effect, start, done);
    BothOpen(lang, done);
    CommittedAtBegin(lang, effect, start, done);
    assert sql == done + sql[k..];
    var begun, open := BegunAt(lang, done), OpenAt(lang, done);
    if begun.Some? {
      assert done[..begun.value] == sql[..begun.value];
      assert sql == sql[..begun.value] + sql[begun.value..];
      RunSplits(lang, effect, start, sql[..begun.value], sql[begun.value..]);
      SameBeginning(lang, effect, t.db, sql, begun.value, open.value);
    } else {
      RunSplits(lang, effect, start, done, sql[k..]);
    }
  }

  /**
   * A stopped script's rest, where it is given, ends as the whole script does: for any database and any effect of its
   * statements, wherever it was stopped, as long as no transaction of the script holds another BEGIN.
   */
  lemma RestEndsTheSame<D>(lang: Lang, effect: (string, D) -> D, db: D, sql: seq<string>,
                           results: seq<StatementResult>, k: nat, cut: bool)
    requires NeverNested(lang, sql) && StoppedAt(lang, sql, results, k, cut)
    ensures var rest := Remaining(lang, sql, results);
            rest.Some? ==> EndsTheSame(lang, effect, db, sql, k, rest.value)
  {
    KnownUnlessCut(lang, sql, results, k, cut);
    var done := sql[..k];
    forall j | 0 <= j < k && lang.isBegin(done[j]) ensures BegunAt(lang, done[..j]).None? {
      assert done[..j] == sql[..j];
    }
    BothOpen(lang, done);
    ResumesRightly(lang, effect, db, sql, k);
  }

  // ---------------------------------------------------------------------------------------------------------------
  // Nested BEGINs
  // ---------------------------------------------------------------------------------------------------------------

  /** A database that only remembers what was done to it. */
  function Remember(stmt: string, log: seq<string>): seq<string> {
    log + [stmt]
  }

  function Longer(a: Session<seq<string>>, b: Session<seq<string>>): bool {
    (a.tx.Some? && b.tx.Some? && |a.tx.value| > |b.tx.value|) || (a.tx.None? && b.tx.None? && |a.db| > |b.db|)
  }

  lemma {:induction false} LongerStays(lang: Lang, a: Session<seq<string>>, b: Session<seq<string>>, sql: seq<string>)
    requires Longer(a, b)
    ensures Longer(Run(lang, Remember, a, sql), Run(lang, Remember, b, sql))
    decreases |sql|
  {
    if sql != [] { LongerStays(lang, Exec(lang, Remember, a, sql[0]), Exec(lang, Remember, b, sql[0]), sql[1..]); }
  }

  function Doings(lang: Lang, sql: seq<string>): nat {
    if sql == [] then 0 else (if lang.isBegin(sql[0]) then 0 else 1) + Doings(lang, sql[1..])
  }

  /** Inside a transaction that stays open, everything but a BEGIN does something. */
  lemma {:induction false} InTransaction(lang: Lang, db: seq<string>, log: seq<string>, sql: seq<string>)
    requires forall stmt <- sql :: lang.isBegin(stmt) || !lang.isEnd(stmt)
    ensures var t := Run(lang, Remember, Session(db, Some(log)), sql);
            t.db == db && t.tx.Some? && |t.tx.value| == |log| + Doings(lang, sql)
    decreases |sql|
  {
    if sql != [] {
      InTransaction(lang, db, if lang.isBegin(sql[0]) then log else log + [sql[0]], sql[1..]);
    }
  }

  lemma {:induction false} NoEndSince(lang: Lang, sql: seq<string>)
    ensures var begun := BegunAt(lang, sql);
            begun.Some? ==> forall j :: begun.value < j < |sql| ==> lang.isBegin(sql[j]) || !lang.isEnd(sql[j])
    decreases |sql|
  {
    if sql != [] {
      var n := |sql| - 1;
      NoEndSince(lang, sql[..n]);
      forall j | 0 <= j < n ensures sql[..n][j] == sql[j] {}
    }
  }

  lemma {:induction false} SomethingDone(lang: Lang, sql: seq<string>, j: nat)
    requires j < |sql| && !lang.isBegin(sql[j])
    ensures Doings(lang, sql) > 0
    decreases |sql|
  {
    if j > 0 { SomethingDone(lang, sql[1..], j - 1); }
  }

  lemma {:induction false} DoingsSplit(lang: Lang, a: seq<string>, b: seq<string>)
    ensures Doings(lang, a + b) == Doings(lang, a) + Doings(lang, b)
    decreases |a|
  {
    if a == [] {
      assert a + b == b;
    } else {
      assert (a + b)[1..] == a[1..] + b;
      DoingsSplit(lang, a[1..], b);
    }
  }

  /** What was done since the transaction's own BEGIN is more than what was done since the last one. */
  lemma MoreWasDone(lang: Lang, sql: seq<string>, k: nat, begun: nat, open: nat)
    requires k <= |sql| && BegunAt(lang, sql[..k]) == Some(begun) && begun <= open < k
    requires exists j :: begun < j < open && !lang.isBegin(sql[j])
    ensures Doings(lang, sql[begun + 1..k]) > Doings(lang, sql[open + 1..k])
    ensures forall stmt <- sql[begun + 1..k] :: lang.isBegin(stmt) || !lang.isEnd(stmt)
    ensures forall stmt <- sql[open + 1..k] :: lang.isBegin(stmt) || !lang.isEnd(stmt)
  {
    NoEndSince(lang, sql[..k]);
    var whole, again, between := sql[begun + 1..k], sql[open + 1..k], sql[begun + 1..open + 1];
    var j :| begun < j < open && !lang.isBegin(sql[j]);
    assert between[j - begun - 1] == sql[j];
    Parts(sql, begun + 1, open + 1, k);
    DoingsSplit(lang, between, again);
    SomethingDone(lang, between, j - begun - 1);
    forall stmt | stmt in whole ensures lang.isBegin(stmt) || !lang.isEnd(stmt) {
      var i :| 0 <= i < |whole| && whole[i] == stmt;
      assert sql[..k][begun + 1 + i] == stmt;
    }
  }

  /** The transaction open at the stop, begun again at its last BEGIN, lacks what came before that. */
  lemma RestLoses(lang: Lang, sql: seq<string>, k: nat)
    requires k <= |sql| && !NothingBetween(lang, sql[..k])
    ensures !EndsTheSame(lang, Remember, [], sql, k, sql[OpenAt(lang, sql[..k]).value..])
  {
    var done, start := sql[..k], Session([], None);
    BothOpen(lang, done);
    CommittedAtBegin(lang, Remember, start, done);
    var begun, open := BegunAt(lang, done).value, OpenAt(lang, done).value;
    var j :| begun < j < open && !lang.isBegin(done[j]);
    assert begun < j < open && !lang.isBegin(sql[j]);
    var db := Run(lang, Remember, start, done).db;
    var whole, again := sql[begun + 1..k], sql[open + 1..k];
    MoreWasDone(lang, sql, k, begun, open);
    InTransaction(lang, db, db, whole);
    InTransaction(lang, db, db, again);
    RunFrom(lang, sql, begun, k, start, db);
    RunAgain(lang, sql, open, k, db);
    LongerStays(lang, Run(lang, Remember, Session(db, Some(db)), whole),
                Run(lang, Remember, Session(db, Some(db)), again), sql[k..]);
  }

  lemma RunAgain(lang: Lang, sql: seq<string>, open: nat, k: nat, db: seq<string>)
    requires open < k <= |sql| && lang.isBegin(sql[open])
    ensures Run(lang, Remember, Session(db, None), sql[open..]) ==
            Run(lang, Remember, Run(lang, Remember, Session(db, Some(db)), sql[open + 1..k]), sql[k..])
  {
    assert sql[open..][1..] == sql[open + 1..k] + sql[k..];
    RunSplits(lang, Remember, Session(db, Some(db)), sql[open + 1..k], sql[k..]);
  }

  lemma RunFrom(lang: Lang, sql: seq<string>, begun: nat, k: nat, start: Session<seq<string>>, db: seq<string>)
    requires begun < k <= |sql| && lang.isBegin(sql[begun])
    requires Run(lang, Remember, start, sql[..k][..begun]) == Session(db, None)
    ensures Run(lang, Remember, start, sql) ==
            Run(lang, Remember, Run(lang, Remember, Session(db, Some(db)), sql[begun + 1..k]), sql[k..])
  {
    assert sql[..k][..begun] == sql[..begun];
    assert sql == sql[..begun] + sql[begun..];
    RunSplits(lang, Remember, start, sql[..begun], sql[begun..]);
    RunAgain(lang, sql, begun, k, db);
  }

  /**
   * With BEGINs inside transactions the rest is right exactly where nothing was done between the BEGIN that opened the
   * transaction the stop undid and the last BEGIN before the stop.
   */
  lemma RestRightExactly(lang: Lang, sql: seq<string>, results: seq<StatementResult>, k: nat, cut: bool)
    requires StoppedAt(lang, sql, results, k, cut) && Remaining(lang, sql, results).Some?
    ensures EndsTheSame(lang, Remember, [], sql, k, Remaining(lang, sql, results).value)
       <==> NothingBetween(lang, sql[..k])
  {
    KnownUnlessCut(lang, sql, results, k, cut);
    if NothingBetween(lang, sql[..k]) { ResumesRightly(lang, Remember, [], sql, k); } else { RestLoses(lang, sql, k); }
  }

  // ---------------------------------------------------------------------------------------------------------------
  // Whatever the results
  // ---------------------------------------------------------------------------------------------------------------

  /** The first result that is an error, or how many results there are. */
  ghost predicate IsFirstError(results: seq<StatementResult>, e: nat) {
    && e <= |results| && (e < |results| ==> results[e].error) && forall i :: 0 <= i < e ==> !results[i].error
  }

  /** What ran is known: each result up to the error is of its statement, and no COMMIT or build was cut short. */
  ghost predicate IsKnown(lang: Lang, sql: seq<string>, results: seq<StatementResult>, e: nat) {
    && (forall i :: 0 <= i < |results| && i <= e ==> Matches(lang, sql, results[i]))
    && (e < |results| ==>
          Matches(lang, sql, results[e])
          && !lang.isEnd(sql[results[e].statement.value]) && !lang.isBuild(sql[results[e].statement.value]))
  }

  /** The statement that was cut short, or the one after the last that ended. */
  ghost predicate IsResume(results: seq<StatementResult>, e: nat, resume: nat) {
    if e < |results| then results[e].statement == Some(resume)
    else
      && (forall r <- results :: r.statement.Some? ==> r.statement.value < resume)
      && (resume > 0 ==> exists r <- results :: r.statement == Some(resume - 1))
  }

  /** A BEGIN with neither a BEGIN nor a COMMIT between it and where the script stopped. */
  ghost predicate IsOpen(lang: Lang, sql: seq<string>, resume: nat, j: nat) {
    && j < resume <= |sql| && lang.isBegin(sql[j])
    && forall k :: j < k < resume ==> !lang.isBegin(sql[k]) && !lang.isEnd(sql[k])
  }

  ghost predicate IsRest(lang: Lang, sql: seq<string>, resume: nat, rest: seq<string>) {
    resume <= |sql|
    && if exists j: nat :: IsOpen(lang, sql, resume, j) then exists j: nat :: IsOpen(lang, sql, resume, j) && rest == sql[j..]
       else rest == sql[resume..]
  }

  lemma {:induction false} OpenIsLast(lang: Lang, sql: seq<string>, n: nat)
    requires n <= |sql|
    ensures var open := OpenAt(lang, sql[..n]);
            if open.Some? then IsOpen(lang, sql, n, open.value) else forall j: nat :: !IsOpen(lang, sql, n, j)
    decreases n
  {
    if n > 0 {
      assert sql[..n][..n - 1] == sql[..n - 1] && sql[..n][n - 1] == sql[n - 1];
      OpenIsLast(lang, sql, n - 1);
      if !lang.isBegin(sql[n - 1]) && !lang.isEnd(sql[n - 1]) {
        forall j: nat ensures IsOpen(lang, sql, n, j) ==> IsOpen(lang, sql, n - 1, j) {}
      }
    }
  }

  /** Where the scan goes on from, with what came before it. */
  ghost predicate IsResumeFrom(results: seq<StatementResult>, e: nat, before: nat, resume: nat) {
    if e < |results| then results[e].statement == Some(resume)
    else
      && before <= resume && (forall r <- results :: r.statement.Some? ==> r.statement.value < resume)
      && (resume > before ==> exists r <- results :: r.statement == Some(resume - 1))
  }

  lemma {:induction false} ScanIs(lang: Lang, sql: seq<string>, results: seq<StatementResult>, before: nat, e: nat)
    requires IsFirstError(results, e)
    ensures var resume := ResumeAt(lang, sql, results, before);
            && (resume.Some? <==> IsKnown(lang, sql, results, e))
            && (resume.Some? ==> IsResumeFrom(results, e, before, resume.value))
    decreases results
  {
    if results != [] {
      var r, rest := results[0], results[1..];
      if Matches(lang, sql, r) && !r.error {
        var next := if before >= r.statement.value + 1 then before else r.statement.value + 1;
        assert forall i :: 0 <= i < |rest| ==> rest[i] == results[i + 1];
        ScanIs(lang, sql, rest, next, e - 1);
        KnownOn(lang, sql, results, e);
        ResumeOn(results, e, before, next);
        hide IsKnown, IsResumeFrom;
      }
    }
  }

  lemma KnownOn(lang: Lang, sql: seq<string>, results: seq<StatementResult>, e: nat)
    requires results != [] && 0 < e <= |results| && Matches(lang, sql, results[0])
    ensures IsKnown(lang, sql, results, e) <==> IsKnown(lang, sql, results[1..], e - 1)
  {
    hide Matches;
    var rest := results[1..];
    assert forall i :: 0 <= i < |rest| ==> rest[i] == results[i + 1];
    if IsKnown(lang, sql, rest, e - 1) {
      forall i | 0 <= i < |results| && i <= e ensures Matches(lang, sql, results[i]) {
        if i > 0 { assert results[i] == rest[i - 1]; }
      }
    }
  }

  lemma ResumeOn(results: seq<StatementResult>, e: nat, before: nat, next: nat)
    requires results != [] && 0 < e <= |results| && results[0].statement.Some? && results[0].statement.value >= 0
    requires next == if before >= results[0].statement.value + 1 then before else results[0].statement.value + 1
    ensures forall resume :: IsResumeFrom(results[1..], e - 1, next, resume) ==> IsResumeFrom(results, e, before, resume)
  {
    var r, rest := results[0], results[1..];
    assert forall x <- results :: x == r || x in rest;
    assert r in results && forall x <- rest :: x in results;
    assert e < |results| ==> rest[e - 1] == results[e];
  }

  /**
   * For any results at all: there is no rest exactly where what ran is not known; else it begins at the transaction
   * that was open at the statement cut short, or after the last that ended, or there.
   */
  lemma RestIsExactly(lang: Lang, sql: seq<string>, results: seq<StatementResult>, e: nat)
    requires IsFirstError(results, e)
    ensures var rest := Remaining(lang, sql, results);
            && (rest.Some? <==> IsKnown(lang, sql, results, e))
            && (rest.Some? ==> exists resume: nat :: IsResume(results, e, resume) && IsRest(lang, sql, resume, rest.value))
  {
    ScanIs(lang, sql, results, 0, e);
    var at := ResumeAt(lang, sql, results, 0);
    if at.Some? {
      var resume := at.value;
      assert IsResume(results, e, resume);
      ResumeInside(lang, sql, results, e, resume);
      OpenIsLast(lang, sql, resume);
      hide IsOpen, IsKnown, IsResume, OpenAt, ResumeAt;
      var rest := Remaining(lang, sql, results).value;
      assert IsRest(lang, sql, resume, rest);
    }
  }

  lemma ResumeInside(lang: Lang, sql: seq<string>, results: seq<StatementResult>, e: nat, resume: nat)
    requires IsKnown(lang, sql, results, e) && IsFirstError(results, e) && IsResume(results, e, resume)
    ensures resume <= |sql|
  {
    if e == |results| && resume > 0 {
      var r :| r in results && r.statement == Some(resume - 1);
      var i :| 0 <= i < |results| && results[i] == r;
      assert Matches(lang, sql, results[i]);
    } else if e < |results| {
      assert Matches(lang, sql, results[e]);
    }
  }
}
