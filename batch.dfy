/**
 * The loop shared by `增减积分` (adjust scores) and `设定积分` (set scores):
 * for each argument in turn, a non-mention adds a failure line, a player
 * without a row adds an "ignored" line, and a player with a row has its score
 * rewritten and adds a success line. Failure lines are appended (`push`) and
 * success lines prepended (`unshift`).
 *
 * Every pass reads the same mention, the second message element: the target
 * id is one parameter of the whole batch, not one per argument.
 */
module Batch {
  import opened ScoreTable

  /** Whether an argument's text contains "at"; nothing else of it is read. */
  datatype Arg = Plain | Mention

  /** What the command does to a score: add a delta, or assign a value. */
  datatype Edit = Adjust(delta: int) | Assign(value: int)

  function Apply(e: Edit, score: int): int
  {
    match e
    case Adjust(d) => score + d
    case Assign(v) => v
  }

  /** One pass's reply line: no mention, player missing, or its score before and after. */
  datatype Line = NotMentioned | Ignored(playerId: string) | Changed(playerId: string, before: int, after: int)

  /** The success lines, in processing order. */
  function Successes(ls: seq<Line>): seq<Line>
  {
    if ls == [] then []
    else (if ls[0].Changed? then [ls[0]] else []) + Successes(ls[1..])
  }

  /** The failure lines, in processing order. */
  function Failures(ls: seq<Line>): seq<Line>
  {
    if ls == [] then []
    else (if ls[0].Changed? then [] else [ls[0]]) + Failures(ls[1..])
  }

  function Reverse(s: seq<Line>): seq<Line>
  {
    if s == [] then [] else Reverse(s[1..]) + [s[0]]
  }

  lemma {:induction false} ReverseSnoc(s: seq<Line>, l: Line)
    ensures Reverse(s + [l]) == [l] + Reverse(s)
  {
    if s == [] {
      assert s + [l] == [l];
    } else {
      assert (s + [l])[0] == s[0] && (s + [l])[1..] == s[1..] + [l];
      ReverseSnoc(s[1..], l);
    }
  }

  /** The order of the reply: the successes latest first, then the failures in order. */
  function Report(ls: seq<Line>): seq<Line>
  {
    Reverse(Successes(ls)) + Failures(ls)
  }

  lemma {:induction false} SuccessesSnoc(ls: seq<Line>, l: Line)
    ensures Successes(ls + [l]) == Successes(ls) + (if l.Changed? then [l] else [])
  {
    if ls == [] {
      assert ls + [l] == [l];
    } else {
      assert (ls + [l])[0] == ls[0] && (ls + [l])[1..] == ls[1..] + [l];
      SuccessesSnoc(ls[1..], l);
      var head := if ls[0].Changed? then [ls[0]] else [];
      assert Successes(ls + [l]) == head + Successes(ls[1..] + [l]);
    }
  }

  lemma {:induction false} FailuresSnoc(ls: seq<Line>, l: Line)
    ensures Failures(ls + [l]) == Failures(ls) + (if l.Changed? then [] else [l])
  {
    if ls == [] {
      assert ls + [l] == [l];
    } else {
      assert (ls + [l])[0] == ls[0] && (ls + [l])[1..] == ls[1..] + [l];
      FailuresSnoc(ls[1..], l);
      var head := if ls[0].Changed? then [] else [ls[0]];
      assert Failures(ls + [l]) == head + Failures(ls[1..] + [l]);
    }
  }

  /**
   * Appending a processed line to the history prepends it to the report when
   * it is a success and appends it when it is a failure: exactly what the
   * loop's `unshift` and `push` do.
   */
  lemma {:induction false} ReportSnoc(ls: seq<Line>, l: Line)
    ensures Report(ls + [l]) == if l.Changed? then [l] + Report(ls) else Report(ls) + [l]
  {
    SuccessesSnoc(ls, l);
    FailuresSnoc(ls, l);
    var s := Successes(ls);
    if l.Changed? {
      ReverseSnoc(s, l);
    } else {
      assert Successes(ls + [l]) == s + [] == s;
    }
  }

  /** The reply line of one pass over the argument `a`, on the table `t`. */
  function StepLine(t: seq<Record>, guild: string, id: string, e: Edit, a: Arg): Line
  {
    match a
    case Plain => NotMentioned
    case Mention =>
      var rows := Select(t, guild, id);
      if |rows| == 0 then Ignored(id) else Changed(id, rows[0].score, Apply(e, rows[0].score))
  }

  /** The table after one pass: only a success writes, and it writes the new score of the key. */
  function StepTable(t: seq<Record>, guild: string, id: string, e: Edit, a: Arg): seq<Record>
  {
    match StepLine(t, guild, id, e, a)
    case Changed(_, _, after) => SetScore(t, guild, id, after)
    case _ => t
  }

  /** One pass on a player with a row: a mention rewrites its score, a non-mention leaves it. */
  lemma StepExisting(t: seq<Record>, guild: string, id: string, e: Edit, a: Arg, rec: Record)
    requires Select(t, guild, id) == [rec]
    ensures Select(StepTable(t, guild, id, e, a), guild, id)
      == [if a == Mention then rec.(score := Apply(e, rec.score)) else rec]
  {
    if a == Mention {
      SelectMembers(t, guild, id);
      assert rec in Select(t, guild, id);
      SelectSetScoreSame(t, guild, id, Apply(e, rec.score));
      assert [rec][0] == rec && [rec][1..] == [];
      assert SetScore([rec], guild, id, Apply(e, rec.score)) == [rec.(score := Apply(e, rec.score))];
    }
  }

  /** The table after a batch and its lines in processing order. */
  datatype Run = Run(table: seq<Record>, lines: seq<Line>)

  function RunBatch(t: seq<Record>, guild: string, id: string, e: Edit, args: seq<Arg>): (r: Run)
    ensures |r.lines| == |args|
    decreases |args|
  {
    if args == [] then Run(t, [])
    else
      var prev := RunBatch(t, guild, id, e, args[..|args| - 1]);
      var a := args[|args| - 1];
      Run(StepTable(prev.table, guild, id, e, a), prev.lines + [StepLine(prev.table, guild, id, e, a)])
  }

  /** Extending the processed prefix by one argument is one more pass. */
  lemma RunBatchStep(t: seq<Record>, guild: string, id: string, e: Edit, args: seq<Arg>, i: nat)
    requires i < |args|
    ensures var done := RunBatch(t, guild, id, e, args[..i]);
      RunBatch(t, guild, id, e, args[..i + 1])
        == Run(StepTable(done.table, guild, id, e, args[i]), done.lines + [StepLine(done.table, guild, id, e, args[i])])
  {
    assert args[..i + 1][..i] == args[..i] && args[..i + 1][i] == args[i];
  }

  /** How many arguments are mentions. */
  function Mentions(args: seq<Arg>): (n: nat)
    ensures n <= |args|
  {
    if args == [] then 0
    else Mentions(args[..|args| - 1]) + (if args[|args| - 1] == Mention then 1 else 0)
  }

  /** A batch keeps the table free of duplicate keys. */
  lemma {:induction false} RunBatchUnique(t: seq<Record>, guild: string, id: string, e: Edit, args: seq<Arg>)
    requires Unique(t)
    ensures Unique(RunBatch(t, guild, id, e, args).table)
    decreases |args|
  {
    if args != [] {
      var prev := RunBatch(t, guild, id, e, args[..|args| - 1]);
      RunBatchUnique(t, guild, id, e, args[..|args| - 1]);
      var line := StepLine(prev.table, guild, id, e, args[|args| - 1]);
      if line.Changed? {
        SetScoreUnique(prev.table, guild, id, line.after);
      }
    }
  }

  /** A batch leaves the rows of every other key as they were. */
  lemma {:induction false} RunBatchOtherKeys(t: seq<Record>, guild: string, id: string, e: Edit, args: seq<Arg>, g: string, p: string)
    requires g != guild || p != id
    ensures Select(RunBatch(t, guild, id, e, args).table, g, p) == Select(t, g, p)
    decreases |args|
  {
    if args != [] {
      var prev := RunBatch(t, guild, id, e, args[..|args| - 1]);
      RunBatchOtherKeys(t, guild, id, e, args[..|args| - 1], g, p);
      var line := StepLine(prev.table, guild, id, e, args[|args| - 1]);
      if line.Changed? {
        SelectSetScoreOther(prev.table, guild, id, line.after, g, p);
      }
    }
  }

  /** The i-th line is a "no mention" failure exactly when the i-th argument is not a mention. */
  lemma {:induction false} RunBatchLines(t: seq<Record>, guild: string, id: string, e: Edit, args: seq<Arg>)
    ensures forall i :: 0 <= i < |args| ==>
      (RunBatch(t, guild, id, e, args).lines[i] == NotMentioned <==> args[i] == Plain)
    decreases |args|
  {
    if args != [] {
      var front := args[..|args| - 1];
      RunBatchLines(t, guild, id, e, front);
      forall i | 0 <= i < |front| ensures args[i] == front[i] { }
    }
  }

  /**
   * When the player has no row, a batch changes nothing and reports every
   * argument as a failure, so the reply keeps processing order.
   */
  lemma {:induction false} RunBatchMissing(t: seq<Record>, guild: string, id: string, e: Edit, args: seq<Arg>)
    requires Select(t, guild, id) == []
    ensures RunBatch(t, guild, id, e, args).table == t
    ensures forall l :: l in RunBatch(t, guild, id, e, args).lines ==> !l.Changed?
    ensures Report(RunBatch(t, guild, id, e, args).lines) == RunBatch(t, guild, id, e, args).lines
    decreases |args|
  {
    if args != [] {
      var front := args[..|args| - 1];
      var prev := RunBatch(t, guild, id, e, front);
      RunBatchMissing(t, guild, id, e, front);
      var line := StepLine(prev.table, guild, id, e, args[|args| - 1]);
      ReportSnoc(prev.lines, line);
    }
  }

  /** Kept apart so that no nonlinear arithmetic enters the induction below. */
  lemma MulSucc(k: int, d: int)
    ensures (k + 1) * d == k * d + d
  {
  }

  /**
   * For a player with a row, a batch of `Adjust(d)` adds `d` once per
   * mention: the final score is the initial one plus the sum of the deltas.
   */
  lemma {:induction false} AdjustBatchTotal(t: seq<Record>, guild: string, id: string, d: int, args: seq<Arg>, rec: Record)
    requires Select(t, guild, id) == [rec]
    ensures Select(RunBatch(t, guild, id, Adjust(d), args).table, guild, id)
      == [rec.(score := rec.score + Mentions(args) * d)]
    decreases |args|
  {
    if args != [] {
      var front := args[..|args| - 1];
      var prev := RunBatch(t, guild, id, Adjust(d), front);
      AdjustBatchTotal(t, guild, id, d, front, rec);
      var k := Mentions(front);
      var cur := rec.(score := rec.score + k * d);
      var a := args[|args| - 1];
      StepExisting(prev.table, guild, id, Adjust(d), a, cur);
      assert RunBatch(t, guild, id, Adjust(d), args).table == StepTable(prev.table, guild, id, Adjust(d), a);
      var n := Mentions(args);
      assert n == k + (if a == Mention then 1 else 0);
      if a == Mention {
        MulSucc(k, d);
      }
    }
  }

  /**
   * For a player with a row, a batch of `Assign(v)` leaves `v` as soon as it
   * holds one mention, and the old score when it holds none.
   */
  lemma {:induction false} AssignBatchFinal(t: seq<Record>, guild: string, id: string, v: int, args: seq<Arg>, rec: Record)
    requires Select(t, guild, id) == [rec]
    ensures Select(RunBatch(t, guild, id, Assign(v), args).table, guild, id)
      == [if Mentions(args) == 0 then rec else rec.(score := v)]
    decreases |args|
  {
    if args != [] {
      var front := args[..|args| - 1];
      var prev := RunBatch(t, guild, id, Assign(v), front);
      AssignBatchFinal(t, guild, id, v, front, rec);
      var cur := if Mentions(front) == 0 then rec else rec.(score := v);
      StepExisting(prev.table, guild, id, Assign(v), args[|args| - 1], cur);
    }
  }

  /**
   * For a player with a row, every mention in an adjust batch is reported as
   * a success whose old score is the initial score plus the deltas of the
   * mentions before it, and whose new score adds one more delta.
   */
  lemma {:induction false} AdjustBatchLines(t: seq<Record>, guild: string, id: string, d: int, args: seq<Arg>, rec: Record)
    requires Select(t, guild, id) == [rec]
    ensures forall i :: 0 <= i < |args| && args[i] == Mention ==>
      RunBatch(t, guild, id, Adjust(d), args).lines[i]
        == Changed(id, rec.score + Mentions(args[..i]) * d, rec.score + Mentions(args[..i]) * d + d)
    decreases |args|
  {
    if args != [] {
      var n := |args| - 1;
      var front := args[..n];
      var prev := RunBatch(t, guild, id, Adjust(d), front);
      AdjustBatchLines(t, guild, id, d, front, rec);
      AdjustBatchTotal(t, guild, id, d, front, rec);
      var lines := RunBatch(t, guild, id, Adjust(d), args).lines;
      assert lines == prev.lines + [StepLine(prev.table, guild, id, Adjust(d), args[n])];
      forall i | 0 <= i < |args| && args[i] == Mention
        ensures lines[i] == Changed(id, rec.score + Mentions(args[..i]) * d, rec.score + Mentions(args[..i]) * d + d)
      {
        if i < n {
          assert args[i] == front[i] && args[..i] == front[..i];
          assert lines[i] == prev.lines[i];
        } else {
          assert args[..i] == front;
        }
      }
    }
  }

  /**
   * For a player with a row, every mention in a set batch is reported as a
   * success from the score it overwrote (the initial one for the first
   * mention, the assigned value after that) to the assigned value.
   */
  lemma {:induction false} AssignBatchLines(t: seq<Record>, guild: string, id: string, v: int, args: seq<Arg>, rec: Record)
    requires Select(t, guild, id) == [rec]
    ensures forall i :: 0 <= i < |args| && args[i] == Mention ==>
      RunBatch(t, guild, id, Assign(v), args).lines[i]
        == Changed(id, if Mentions(args[..i]) == 0 then rec.score else v, v)
    decreases |args|
  {
    if args != [] {
      var n := |args| - 1;
      var front := args[..n];
      var prev := RunBatch(t, guild, id, Assign(v), front);
      AssignBatchLines(t, guild, id, v, front, rec);
      AssignBatchFinal(t, guild, id, v, front, rec);
      var lines := RunBatch(t, guild, id, Assign(v), args).lines;
      assert lines == prev.lines + [StepLine(prev.table, guild, id, Assign(v), args[n])];
      forall i | 0 <= i < |args| && args[i] == Mention
        ensures lines[i] == Changed(id, if Mentions(args[..i]) == 0 then rec.score else v, v)
      {
        if i < n {
          assert args[i] == front[i] && args[..i] == front[..i];
          assert lines[i] == prev.lines[i];
        } else {
          assert args[..i] == front;
        }
      }
    }
  }
}
