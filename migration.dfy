/** scripts/run-migration.js: splitting the migration file into statements and sending them one by one
    through the `exec_sql` remote procedure. The file's text and every answer of the database are
    parameters. */
module Migration {
  import opened Strings
  import Seqs

  /** The filter of the split: a statement is kept when it is not empty and not a `--` comment. */
  function KeepStatement(s: string): bool {
    |s| > 0 && !StartsWith(s, "--")
  }

  /** `sql.split(';').map(s => s.trim()).filter(...)`. */
  function SplitStatements(sql: string): (r: seq<string>)
    ensures forall s :: s in r ==> IsTrimmed(s) && s != "" && !StartsWith(s, "--") && ';' !in s
    ensures forall s :: s in r <==> s in Seqs.Map(Split(sql, ';'), Trim) && KeepStatement(s)
    ensures Seqs.IsSubsequence(r, Seqs.Map(Split(sql, ';'), Trim))
    ensures forall s :: multiset(r)[s] == if KeepStatement(s) then multiset(Seqs.Map(Split(sql, ';'), Trim))[s] else 0
  {
    var trimmed := Seqs.Map(Split(sql, ';'), Trim);
    TrimmedPieces(sql);
    Seqs.FilterIsSubsequence(trimmed, KeepStatement);
    forall s ensures multiset(Seqs.Filter(trimmed, KeepStatement))[s] == if KeepStatement(s) then multiset(trimmed)[s] else 0 {
      Seqs.FilterCount(trimmed, KeepStatement, s);
    }
    Seqs.Filter(trimmed, KeepStatement)
  }

  /** The trimmed pieces of a split are trimmed and free of the separator. */
  lemma TrimmedPieces(sql: string)
    ensures forall s :: s in Seqs.Map(Split(sql, ';'), Trim) ==> IsTrimmed(s) && ';' !in s
  {
    var pieces := Split(sql, ';');
    var trimmed := Seqs.Map(pieces, Trim);
    forall s | s in trimmed
      ensures IsTrimmed(s) && ';' !in s
    {
      var k :| 0 <= k < |trimmed| && trimmed[k] == s;
      TrimAvoids(pieces[k], ';');
    }
  }

  /** Statements that are trimmed, not empty, free of `;` and not comments, joined by `;`, split back into
      themselves. */
  lemma StatementsRoundTrip(stmts: seq<string>)
    requires |stmts| >= 1
    requires forall k :: 0 <= k < |stmts| ==> IsTrimmed(stmts[k]) && KeepStatement(stmts[k]) && ';' !in stmts[k]
    ensures SplitStatements(Join(stmts, ';')) == stmts
  {
    SplitJoin(stmts, ';');
    forall k | 0 <= k < |stmts|
      ensures Trim(stmts[k]) == stmts[k]
    {
      TrimTrimmed(stmts[k]);
    }
    assert Seqs.Map(stmts, Trim) == stmts;
    Seqs.FilterKeepsAll(stmts, KeepStatement);
  }

  /** The loop's skip test: a comment, or a statement mentioning `note:` in any ASCII case. */
  function Skipped(statement: string): bool {
    StartsWith(statement, "--") || Contains(ToLower(statement), "note:")
  }

  function IsSent(statement: string): bool {
    !Skipped(statement)
  }

  /** An error that makes the script give up on automated execution. */
  function IsFatal(message: string): bool {
    Contains(message, "function") || Contains(message, "does not exist")
  }

  /** What one `exec_sql` call comes back with: success, an error with its message, or an exception. */
  datatype RpcAnswer = Succeeded | Failed(message: string) | Threw

  /** A request the script makes: the remote procedure with its query, or the `from('_')` probe that
      follows every failed call. */
  datatype Call = Rpc(query: string) | Probe

  /** What the loop makes of one statement and the answer to its call. */
  datatype Outcome =
    | Skip       // a comment or a note: nothing is sent
    | Sent       // the call was made and did not report an error (it succeeded, or it threw)
    | Recovered  // the call reported an error that is not fatal: the probe follows and the loop goes on
    | Fatal      // the call reported a fatal error: the probe follows and the loop ends

  /** The branches of the loop body, in the order the loop tests them. */
  function Classify(statement: string, answer: RpcAnswer): Outcome {
    if Skipped(statement) then Skip
    else if !answer.Failed? then Sent
    else if IsFatal(answer.message) then Fatal
    else Recovered
  }

  /** The outcome of every statement, `answers(k)` being the answer to the call for statement `k`. */
  function Outcomes(stmts: seq<string>, answers: nat -> RpcAnswer): (r: seq<Outcome>)
    ensures |r| == |stmts|
    decreases |stmts|
  {
    if stmts == [] then []
    else Outcomes(stmts[..|stmts| - 1], answers) + [Classify(stmts[|stmts| - 1], answers(|stmts| - 1))]
  }

  /** The outcome of statement `k` is the branch the loop body takes for it. */
  lemma {:induction false} OutcomeAt(stmts: seq<string>, answers: nat -> RpcAnswer, k: nat)
    requires k < |stmts|
    ensures Outcomes(stmts, answers)[k] == Classify(stmts[k], answers(k))
    decreases |stmts|
  {
    var front := stmts[..|stmts| - 1];
    if k < |front| {
      OutcomeAt(front, answers, k);
      assert front[k] == stmts[k];
    }
  }

  /** Which outcome each branch of the loop body stands for. */
  lemma OutcomeBranches(stmts: seq<string>, answers: nat -> RpcAnswer, k: nat)
    requires k < |stmts|
    ensures var o := Outcomes(stmts, answers)[k];
            && (Skipped(stmts[k]) ==> o == Skip)
            && (!Skipped(stmts[k]) && !answers(k).Failed? ==> o == Sent)
            && (!Skipped(stmts[k]) && answers(k).Failed? && IsFatal(answers(k).message) ==> o == Fatal)
            && (!Skipped(stmts[k]) && answers(k).Failed? && !IsFatal(answers(k).message) ==> o == Recovered)
  {
    OutcomeAt(stmts, answers, k);
  }

  /** The requests the loop makes for one statement: none when it is skipped, the call, and after a call that
      reported an error the probe. */
  function Step(statement: string, o: Outcome): seq<Call> {
    match o
    case Skip => []
    case Sent => [Rpc(statement + ";")]
    case _ => [Rpc(statement + ";"), Probe]
  }

  /** The requests made from statement `i` on, `os` being the outcomes of the statements. */
  function Run(stmts: seq<string>, os: seq<Outcome>, i: nat): seq<Call>
    requires |os| == |stmts|
    decreases |stmts| - i
  {
    if i >= |stmts| then []
    else Step(stmts[i], os[i]) + if os[i] == Fatal then [] else Run(stmts, os, i + 1)
  }

  /** `Run` from a statement on: that statement's requests, then, unless it ended the loop, the rest. */
  lemma RunFrom(stmts: seq<string>, os: seq<Outcome>, i: nat)
    requires |os| == |stmts| && i < |stmts|
    ensures os[i] == Fatal ==> Run(stmts, os, i) == Step(stmts[i], os[i])
    ensures os[i] != Fatal ==> Run(stmts, os, i) == Step(stmts[i], os[i]) + Run(stmts, os, i + 1)
  {
    if os[i] == Fatal {
      assert Step(stmts[i], os[i]) + [] == Step(stmts[i], os[i]);
    }
  }

  /** The queries among `calls`, in order. */
  function Queries(calls: seq<Call>): (r: seq<string>)
    ensures |r| <= |calls|
  {
    if calls == [] then []
    else (if calls[0].Rpc? then [calls[0].query] else []) + Queries(calls[1..])
  }

  /** The `for` loop of `runMigration`. */
  method RunMigration(stmts: seq<string>, answers: nat -> RpcAnswer) returns (calls: seq<Call>)
    ensures calls == Run(stmts, Outcomes(stmts, answers), 0)
  {
    ghost var os := Outcomes(stmts, answers);
    calls := [];
    var i := 0;
    while i < |stmts|
      invariant 0 <= i <= |stmts|
      invariant calls + Run(stmts, os, i) == Run(stmts, os, 0)
    {
      var statement := stmts[i];
      OutcomeBranches(stmts, answers, i);
      LoopStep(stmts, os, i, calls);
      if Skipped(statement) {
        assert os[i] == Skip;
        i := i + 1;
        continue;
      }
      calls := calls + [Rpc(statement + ";")];
      var answer := answers(i);
      if answer.Failed? {
        calls := calls + [Probe];
        if IsFatal(answer.message) {
          assert os[i] == Fatal;
          return;
        }
        assert os[i] == Recovered;
      } else {
        assert os[i] == Sent;
      }
      i := i + 1;
    }
  }

  /** What one pass of the loop body adds to the requests made so far, for each outcome of the statement. */
  lemma LoopStep(stmts: seq<string>, os: seq<Outcome>, i: nat, calls: seq<Call>)
    requires |os| == |stmts| && i < |stmts|
    ensures var call := Rpc(stmts[i] + ";");
            && (os[i] == Skip ==> calls + Run(stmts, os, i) == calls + Run(stmts, os, i + 1))
            && (os[i] == Sent ==> calls + Run(stmts, os, i) == (calls + [call]) + Run(stmts, os, i + 1))
            && (os[i] == Recovered ==> calls + Run(stmts, os, i) == ((calls + [call]) + [Probe]) + Run(stmts, os, i + 1))
            && (os[i] == Fatal ==> calls + Run(stmts, os, i) == (calls + [call]) + [Probe])
  {
    var call := Rpc(stmts[i] + ";");
    var rest := Run(stmts, os, i + 1);
    RunFrom(stmts, os, i);
    match os[i]
    case Skip =>
      assert Run(stmts, os, i) == rest;
    case Sent =>
      Seqs.AppendAssoc(calls, [call], rest);
    case Recovered =>
      assert [call] + [Probe] == [call, Probe];
      Seqs.AppendAssoc(calls, [call], [Probe]);
      Seqs.AppendAssoc(calls, [call, Probe], rest);
    case Fatal =>
      assert [call] + [Probe] == [call, Probe];
      Seqs.AppendAssoc(calls, [call], [Probe]);
  }

  /** Every statement is its own query with `;` appended. */
  function WithSemicolon(statement: string): string {
    statement + ";"
  }

  lemma {:induction false} QueriesAppend(a: seq<Call>, b: seq<Call>)
    ensures Queries(a + b) == Queries(a) + Queries(b)
    decreases |a|
  {
    if a == [] {
      assert a + b == b;
    } else {
      assert (a + b)[0] == a[0];
      assert (a + b)[1..] == a[1..] + b;
      QueriesAppend(a[1..], b);
    }
  }

  /** The queries of one statement's requests: its own with `;` appended, unless it is skipped. */
  lemma StepQueries(statement: string, o: Outcome)
    ensures Queries(Step(statement, o)) == if o == Skip then [] else [WithSemicolon(statement)]
  {
    if o == Recovered || o == Fatal {
      var r := Step(statement, o);
      assert r[1..] == [Probe] && [Probe][1..] == [];
    }
  }

  /** One statement's share of the queries of a run it does not end. */
  lemma RunQueriesFrom(stmts: seq<string>, os: seq<Outcome>, i: nat)
    requires |os| == |stmts| && i < |stmts| && os[i] != Fatal
    ensures Queries(Run(stmts, os, i)) ==
            (if os[i] == Skip then [] else [WithSemicolon(stmts[i])]) + Queries(Run(stmts, os, i + 1))
  {
    RunFrom(stmts, os, i);
    QueriesAppend(Step(stmts[i], os[i]), Run(stmts, os, i + 1));
    StepQueries(stmts[i], os[i]);
  }

  /** With no fatal error, the script sends every statement the loop does not skip, in order, each followed
      by `;`. */
  lemma {:induction false} NoFatalSendsAll(stmts: seq<string>, answers: nat -> RpcAnswer, i: nat)
    requires i <= |stmts|
    requires forall k :: i <= k < |stmts| ==> Classify(stmts[k], answers(k)) != Fatal
    ensures Queries(Run(stmts, Outcomes(stmts, answers), i)) == Seqs.Map(Seqs.Filter(stmts[i..], IsSent), WithSemicolon)
    decreases |stmts| - i
  {
    var os := Outcomes(stmts, answers);
    if i == |stmts| {
      assert stmts[i..] == [];
    } else {
      NoFatalSendsAll(stmts, answers, i + 1);
      OutcomeAt(stmts, answers, i);
      RunQueriesFrom(stmts, os, i);
      Seqs.FilterFrom(stmts, IsSent, i);
      var kept := if IsSent(stmts[i]) then [stmts[i]] else [];
      Seqs.MapAppend(kept, Seqs.Filter(stmts[i + 1..], IsSent), WithSemicolon);
      assert Seqs.Map(kept, WithSemicolon) == if IsSent(stmts[i]) then [WithSemicolon(stmts[i])] else [];
    }
  }

  /** Where a run from `i` stops: just after the first fatal statement, or at the end when there is none. */
  function Reached(os: seq<Outcome>, i: nat): (e: nat)
    requires i <= |os|
    ensures i <= e <= |os|
  {
    var j := FirstFatal(os, i);
    if j < |os| then j + 1 else |os|
  }

  /** A statement is sent exactly when its outcome is not a skip. */
  lemma SentIffNotSkip(statement: string, answer: RpcAnswer)
    ensures IsSent(statement) <==> Classify(statement, answer) != Skip
  {
  }

  /** Fatal or not, the script sends, in order and each followed by `;`, the statements the loop does not
      skip among those it reaches: the ones up to and including the first fatal one. */
  lemma {:induction false} SentUpToFatal(stmts: seq<string>, answers: nat -> RpcAnswer, i: nat)
    requires i <= |stmts|
    ensures var os := Outcomes(stmts, answers);
            Queries(Run(stmts, os, i)) == Seqs.Map(Seqs.Filter(stmts[i..Reached(os, i)], IsSent), WithSemicolon)
    decreases |stmts| - i
  {
    var os := Outcomes(stmts, answers);
    var e := Reached(os, i);
    if i == |stmts| {
      assert stmts[i..e] == [];
    } else {
      OutcomeAt(stmts, answers, i);
      SentIffNotSkip(stmts[i], answers(i));
      var t := stmts[i..e];
      Seqs.FilterFrom(t, IsSent, 0);
      assert t[0..] == t && t[0] == stmts[i];
      if os[i] == Fatal {
        assert e == i + 1 && t[1..] == [];
        RunFrom(stmts, os, i);
        StepQueries(stmts[i], os[i]);
        assert Seqs.Filter(t, IsSent) == [stmts[i]];
        assert Seqs.Map([stmts[i]], WithSemicolon) == [WithSemicolon(stmts[i])];
      } else {
        assert Reached(os, i + 1) == e;
        SentUpToFatal(stmts, answers, i + 1);
        RunQueriesFrom(stmts, os, i);
        assert t[1..] == stmts[i + 1..e];
        var kept := if IsSent(stmts[i]) then [stmts[i]] else [];
        Seqs.MapAppend(kept, Seqs.Filter(stmts[i + 1..e], IsSent), WithSemicolon);
        assert Seqs.Map(kept, WithSemicolon) == if IsSent(stmts[i]) then [WithSemicolon(stmts[i])] else [];
      }
    }
  }

  /** After a fatal error on statement `j`, no later statement matters: the run is that of the statements
      up to `j`. */
  lemma {:induction false} NothingAfterFatal(stmts: seq<string>, os: seq<Outcome>, j: nat, i: nat)
    requires |os| == |stmts| && i <= j < |stmts| && os[j] == Fatal
    ensures Run(stmts, os, i) == Run(stmts[..j + 1], os[..j + 1], i)
    decreases j - i
  {
    var ps, pos := stmts[..j + 1], os[..j + 1];
    assert ps[i] == stmts[i] && pos[i] == os[i];
    RunFrom(stmts, os, i);
    RunFrom(ps, pos, i);
    if os[i] != Fatal {
      NothingAfterFatal(stmts, os, j, i + 1);
      assert Run(stmts, os, i + 1) == Run(ps, pos, i + 1);
    }
  }

  /** The index of the first fatal outcome from `i` on, or `|os|` when there is none. */
  function FirstFatal(os: seq<Outcome>, i: nat): (r: nat)
    requires i <= |os|
    ensures i <= r <= |os|
    decreases |os| - i
  {
    if i == |os| then i else if os[i] == Fatal then i else FirstFatal(os, i + 1)
  }

  /** `FirstFatal` is fatal, and nothing before it from `i` on is. */
  lemma {:induction false} FirstFatalSpec(os: seq<Outcome>, i: nat)
    requires i <= |os|
    ensures var r := FirstFatal(os, i);
            && (r < |os| ==> os[r] == Fatal)
            && forall k :: i <= k < r ==> os[k] != Fatal
    decreases |os| - i
  {
    if i < |os| && os[i] != Fatal {
      FirstFatalSpec(os, i + 1);
    }
  }

  /** The first fatal error ends the run: its call and the probe after it are the last two requests. */
  lemma {:induction false} FatalEndsWithProbe(stmts: seq<string>, os: seq<Outcome>, i: nat)
    requires |os| == |stmts| && i <= |stmts| && FirstFatal(os, i) < |stmts|
    ensures var r := Run(stmts, os, i);
            var j := FirstFatal(os, i);
            |r| >= 2 && r[|r| - 2..] == [Rpc(stmts[j] + ";"), Probe]
    decreases |stmts| - i
  {
    RunFrom(stmts, os, i);
    if os[i] != Fatal {
      FatalEndsWithProbe(stmts, os, i + 1);
      Seqs.SuffixOfAppend(Step(stmts[i], os[i]), Run(stmts, os, i + 1), 2);
    } else {
      var r := Step(stmts[i], os[i]);
      assert r == [Rpc(stmts[i] + ";"), Probe];
      assert r[|r| - 2..] == r;
    }
  }
}
