/**
 * The scoreboard plugin's chat commands as operations on its two tables.
 *
 * Each command method takes what the chat layer has already resolved: the
 * acting user's id, the guild's id, for each player argument whether its text
 * contains "at" (`Arg`), and the id of the mentioned user. Its result is the
 * kind of reply the command sends back; display names and the text around the
 * numbers are not modelled.
 */
module Plugin {
  import opened Options
  import opened ScoreTable
  import opened AdminList
  import opened Permission
  import opened Batch

  /** What the answer to `清空计分板`'s confirmation prompt decides. */
  datatype ClearOutcome = Confirmed | Cancelled | TimedOut | InvalidReply

  /**
   * The `switch` on the prompt's answer: "确定" confirms, "取消" cancels, no
   * answer within the time limit times out, and anything else is refused.
   */
  function ClearDecision(answer: Option<string>): (c: ClearOutcome)
    ensures c == Confirmed <==> answer == Some("确定")
    ensures c == Cancelled <==> answer == Some("取消")
    ensures c == TimedOut <==> answer == None
  {
    match answer
    case None => TimedOut
    case Some(s) => if s == "确定" then Confirmed else if s == "取消" then Cancelled else InvalidReply
  }

  datatype Reply =
    | Denied                                      // 你的权限不足
    | NoMention                                   // 你没有at到人
    | PlayerAdded(playerId: string, score: int)   // 操作成功，新增内容
    | PlayerExists(score: int)                    // 操作失败，该玩家已存在
    | BatchReply(lines: seq<Line>)                // the lines joined by a separator
    | PlayerRemoved(playerId: string, oldScore: int) // 已删除玩家
    | PlayerNotFound                              // 操作失败，找不到该玩家
    | ClearReply(outcome: ClearOutcome)
    | AdminAdded                                  // 添加成功
    | AdminExists                                 // 该管理员已存在
    | AdminRemoved                                // 移除成功
    | AdminMissing                                // 该管理员不存在

  class Scoreboard {
    const config: Config
    /** The `scoreboard` table. */
    var scores: seq<Record>
    /** The `scoreboardAdmins` table: a guild without a row has no entry. */
    var admins: map<string, seq<string>>

    ghost predicate Valid()
      reads this
    {
      && Unique(scores)
      && forall g :: g in admins ==> Distinct(admins[g])
    }

    constructor (config: Config)
      ensures Valid() && this.config == config
      ensures scores == [] && admins == map[]
    {
      this.config := config;
      scores := [];
      admins := map[];
    }

    /** `getAdmins`: the guild's admin list, or `None` when the guild has no row. */
    function GetAdmins(guild: string): (r: Option<seq<string>>)
      reads this
    {
      if guild in admins then Some(admins[guild]) else None
    }

    /**
     * `添加玩家`: create a row for the mentioned player with the given score,
     * 0 when none is given, unless the player already has one.
     */
    method AddPlayer(actor: string, guild: string, player: Arg, id: string, name: string, score: Option<int>)
      returns (reply: Reply)
      requires Valid()
      modifies this
      ensures Valid() && admins == old(admins)
      ensures !MayManage(config, actor) ==> reply == Denied && scores == old(scores)
      ensures MayManage(config, actor) && player == Plain ==> reply == NoMention && scores == old(scores)
      ensures MayManage(config, actor) && player == Mention && old(Select(scores, guild, id)) != [] ==>
        reply == PlayerExists(old(Select(scores, guild, id))[0].score) && scores == old(scores)
      ensures MayManage(config, actor) && player == Mention && old(Select(scores, guild, id)) == [] ==>
        && reply == PlayerAdded(id, score.GetOr(0))
        && scores == old(scores) + [Record(guild, id, name, score.GetOr(0))]
        && Select(scores, guild, id) == [Record(guild, id, name, score.GetOr(0))]
        && forall g, p :: (g != guild || p != id) ==> Select(scores, g, p) == old(Select(scores, g, p))
    {
      if !MayManage(config, actor) {
        return Denied;
      }
      if player == Plain {
        return NoMention;
      }
      var rows := Select(scores, guild, id);
      if |rows| == 0 {
        var rec := Record(guild, id, name, score.GetOr(0));
        CreateFresh(scores, rec);
        scores := scores + [rec];
        reply := PlayerAdded(id, rec.score);
      } else {
        reply := PlayerExists(rows[0].score);
      }
    }

    /**
     * The loop of `增减积分` and `设定积分`: one pass per argument, failures
     * pushed and successes unshifted onto the reply list.
     */
    method ApplyBatch(guild: string, id: string, e: Edit, args: seq<Arg>) returns (result: seq<Line>)
      requires Valid()
      modifies this
      ensures Valid() && admins == old(admins)
      ensures scores == RunBatch(old(scores), guild, id, e, args).table
      ensures result == Report(RunBatch(old(scores), guild, id, e, args).lines)
    {
      result := [];
      var i := 0;
      while i < |args|
        invariant 0 <= i <= |args|
        invariant admins == old(admins)
        invariant scores == RunBatch(old(scores), guild, id, e, args[..i]).table
        invariant result == Report(RunBatch(old(scores), guild, id, e, args[..i]).lines)
      {
        ghost var done := RunBatch(old(scores), guild, id, e, args[..i]);
        ghost var line := StepLine(done.table, guild, id, e, args[i]);
        RunBatchStep(old(scores), guild, id, e, args, i);
        ReportSnoc(done.lines, line);
        if args[i] == Plain {
          result := result + [NotMentioned];
        } else {
          var rows := Select(scores, guild, id);
          if |rows| == 0 {
            result := result + [Ignored(id)];
          } else {
            var before := rows[0].score;
            var after := Apply(e, before);
            assert line == Changed(id, before, after);
            scores := SetScore(scores, guild, id, after);
            result := [Changed(id, before, after)] + result;
          }
        }
        i := i + 1;
      }
      assert args[..|args|] == args;
      RunBatchUnique(old(scores), guild, id, e, args);
    }

    /**
     * `增减积分`: add `delta` to the mentioned player once per mention among
     * the arguments, reporting each pass.
     */
    method AdjustScores(actor: string, guild: string, delta: int, players: seq<Arg>, id: string)
      returns (reply: Reply)
      requires Valid()
      modifies this
      ensures Valid() && admins == old(admins)
      ensures !MayManage(config, actor) ==> reply == Denied && scores == old(scores)
      ensures MayManage(config, actor) ==>
        && scores == RunBatch(old(scores), guild, id, Adjust(delta), players).table
        && reply == BatchReply(Report(RunBatch(old(scores), guild, id, Adjust(delta), players).lines))
      ensures MayManage(config, actor) && old(Select(scores, guild, id)) != [] ==>
        Select(scores, guild, id) == [old(Select(scores, guild, id))[0].(score :=
          old(Select(scores, guild, id))[0].score + Mentions(players) * delta)]
      ensures MayManage(config, actor) && old(Select(scores, guild, id)) == [] ==>
        scores == old(scores) && reply == BatchReply(RunBatch(old(scores), guild, id, Adjust(delta), players).lines)
      ensures forall g, p :: (g != guild || p != id) ==> Select(scores, g, p) == old(Select(scores, g, p))
    {
      if !MayManage(config, actor) {
        return Denied;
      }
      var rows := Select(scores, guild, id);
      if rows != [] {
        assert rows == [rows[0]];
        AdjustBatchTotal(scores, guild, id, delta, players, rows[0]);
      } else {
        RunBatchMissing(scores, guild, id, Adjust(delta), players);
      }
      forall g, p | g != guild || p != id
        ensures Select(RunBatch(scores, guild, id, Adjust(delta), players).table, g, p) == Select(scores, g, p)
      {
        RunBatchOtherKeys(scores, guild, id, Adjust(delta), players, g, p);
      }
      var lines := ApplyBatch(guild, id, Adjust(delta), players);
      reply := BatchReply(lines);
    }

    /**
     * `设定积分`: set the mentioned player's score to `value`, reporting each
     * pass with the score it overwrote.
     */
    method SetScores(actor: string, guild: string, value: int, players: seq<Arg>, id: string)
      returns (reply: Reply)
      requires Valid()
      modifies this
      ensures Valid() && admins == old(admins)
      ensures !MayManage(config, actor) ==> reply == Denied && scores == old(scores)
      ensures MayManage(config, actor) ==>
        && scores == RunBatch(old(scores), guild, id, Assign(value), players).table
        && reply == BatchReply(Report(RunBatch(old(scores), guild, id, Assign(value), players).lines))
      ensures MayManage(config, actor) && old(Select(scores, guild, id)) != [] && Mentions(players) > 0 ==>
        Select(scores, guild, id) == [old(Select(scores, guild, id))[0].(score := value)]
      ensures Mentions(players) == 0 ==> Select(scores, guild, id) == old(Select(scores, guild, id))
      ensures MayManage(config, actor) && old(Select(scores, guild, id)) == [] ==>
        scores == old(scores) && reply == BatchReply(RunBatch(old(scores), guild, id, Assign(value), players).lines)
      ensures forall g, p :: (g != guild || p != id) ==> Select(scores, g, p) == old(Select(scores, g, p))
    {
      if !MayManage(config, actor) {
        return Denied;
      }
      var rows := Select(scores, guild, id);
      if rows != [] {
        assert rows == [rows[0]];
        AssignBatchFinal(scores, guild, id, value, players, rows[0]);
      } else {
        RunBatchMissing(scores, guild, id, Assign(value), players);
      }
      forall g, p | g != guild || p != id
        ensures Select(RunBatch(scores, guild, id, Assign(value), players).table, g, p) == Select(scores, g, p)
      {
        RunBatchOtherKeys(scores, guild, id, Assign(value), players, g, p);
      }
      var lines := ApplyBatch(guild, id, Assign(value), players);
      reply := BatchReply(lines);
    }

    /** `删除玩家`: remove the mentioned player's row, reporting the score it held. */
    method DeletePlayer(actor: string, guild: string, player: Arg, id: string) returns (reply: Reply)
      requires Valid()
      modifies this
      ensures Valid() && admins == old(admins)
      ensures !MayManage(config, actor) ==> reply == Denied && scores == old(scores)
      ensures MayManage(config, actor) && player == Plain ==> reply == NoMention && scores == old(scores)
      ensures MayManage(config, actor) && player == Mention && old(Select(scores, guild, id)) == [] ==>
        reply == PlayerNotFound && scores == old(scores)
      ensures MayManage(config, actor) && player == Mention && old(Select(scores, guild, id)) != [] ==>
        && reply == PlayerRemoved(id, old(Select(scores, guild, id))[0].score)
        && scores == RemovePlayer(old(scores), guild, id)
        && Select(scores, guild, id) == []
      ensures forall g, p :: (g != guild || p != id) ==> Select(scores, g, p) == old(Select(scores, g, p))
    {
      if !MayManage(config, actor) {
        return Denied;
      }
      if player == Plain {
        return NoMention;
      }
      var rows := Select(scores, guild, id);
      if |rows| == 0 {
        reply := PlayerNotFound;
      } else {
        RemovePlayerEffect(scores, guild, id);
        FilterUnique(scores, (x: Record) => !HasKey(x, guild, id));
        scores := RemovePlayer(scores, guild, id);
        reply := PlayerRemoved(id, rows[0].score);
      }
    }

    /** `清空计分板`: after a confirming answer, remove every row of the guild. */
    method ClearBoard(actor: string, guild: string, answer: Option<string>) returns (reply: Reply)
      requires Valid()
      modifies this
      ensures Valid() && admins == old(admins)
      ensures !MayManage(config, actor) ==> reply == Denied
      ensures MayManage(config, actor) ==> reply == ClearReply(ClearDecision(answer))
      ensures MayManage(config, actor) && answer == Some("确定") ==>
        && scores == ClearGuild(old(scores), guild)
        && (forall p :: Select(scores, guild, p) == [])
        && forall g, p :: g != guild ==> Select(scores, g, p) == old(Select(scores, g, p))
      ensures !(MayManage(config, actor) && answer == Some("确定")) ==> scores == old(scores)
    {
      if !MayManage(config, actor) {
        return Denied;
      }
      var outcome := ClearDecision(answer);
      if outcome == Confirmed {
        ClearGuildEffect(scores, guild);
        FilterUnique(scores, (x: Record) => x.guildId != guild);
        scores := ClearGuild(scores, guild);
      }
      reply := ClearReply(outcome);
    }

    /**
     * `添加计分管理员`: create the guild's list holding `id` when it has none;
     * otherwise append `key` unless the list already holds it. The source
     * passes `qqnum[0]` as `key` (see `AdminKey`).
     */
    method AddAdmin(actor: string, guild: string, user: Arg, id: string, key: string) returns (reply: Reply)
      requires Valid()
      modifies this
      ensures Valid() && scores == old(scores)
      ensures reply == Denied <==> !MayAddAdmin(config, old(GetAdmins(guild)), actor)
      ensures reply == Denied ==> admins == old(admins)
      ensures MayAddAdmin(config, old(GetAdmins(guild)), actor) && user == Plain ==>
        reply == NoMention && admins == old(admins)
      ensures MayAddAdmin(config, old(GetAdmins(guild)), actor) && user == Mention ==>
        && admins == old(admins)[guild := AddedList(old(GetAdmins(guild)), id, key)]
        && reply == (if guild in old(admins) && key in old(admins)[guild] then AdminExists else AdminAdded)
      ensures reply == AdminExists ==> admins == old(admins)
    {
      var list := GetAdmins(guild);
      if !MayAddAdmin(config, list, actor) {
        return Denied;
      }
      if user == Plain {
        return NoMention;
      }
      AddedListDistinct(list, id, key);
      match list
      case None =>
        admins := admins[guild := [id]];
        reply := AdminAdded;
      case Some(l) =>
        if key in l {
          reply := AdminExists;
        } else {
          admins := admins[guild := l + [key]];
          reply := AdminAdded;
        }
    }

    /**
     * `移除计分管理员`: take the first occurrence of `key` out of the guild's
     * list, keeping the rest in order. The source passes `qqnum[0]` as `key`.
     */
    method RemoveAdmin(actor: string, guild: string, user: Arg, key: string) returns (reply: Reply)
      requires Valid()
      modifies this
      ensures Valid() && scores == old(scores)
      ensures reply == Denied <==> !MayRemoveAdmin(config, old(GetAdmins(guild)), actor)
      ensures reply == Denied ==> admins == old(admins)
      ensures MayRemoveAdmin(config, old(GetAdmins(guild)), actor) && user == Plain ==>
        reply == NoMention && admins == old(admins)
      ensures (MayRemoveAdmin(config, old(GetAdmins(guild)), actor) && user == Mention &&
               !(guild in old(admins) && key in old(admins)[guild])) ==>
        reply == AdminMissing && admins == old(admins)
      ensures (MayRemoveAdmin(config, old(GetAdmins(guild)), actor) && user == Mention &&
               guild in old(admins) && key in old(admins)[guild]) ==>
        && reply == AdminRemoved
        && admins == old(admins)[guild := RemoveFirst(old(admins)[guild], key)]
        && key !in admins[guild]
        && GetAdmins(guild) == Some(RemoveFirst(old(admins)[guild], key))
    {
      var list := GetAdmins(guild);
      if !MayRemoveAdmin(config, list, actor) {
        return Denied;
      }
      if user == Plain {
        return NoMention;
      }
      if !(list.Some? && key in list.value) {
        return AdminMissing;
      }
      var l := list.value;
      RemoveFirstSplices(l, key);
      admins := admins[guild := RemoveFirst(l, key)];
      reply := AdminRemoved;
    }
  }

  /**
   * A client of the commands: in guild G1 with super-admin U1, player P1 is
   * added with no score, raised by 50, set to 10 and deleted; a user who is
   * not a super-admin is refused and changes nothing.
   */
  method Scenario()
  {
    var board := new Scoreboard(DefaultConfig(["U1"]));
    var r := board.AddPlayer("U1", "G1", Mention, "P1", "Alice", None);
    assert r == PlayerAdded("P1", 0);
    assert Select(board.scores, "G1", "P1") == [Record("G1", "P1", "Alice", 0)];
    r := board.AddPlayer("U1", "G1", Mention, "P1", "Alice", Some(7));
    assert r == PlayerExists(0);
    assert Mentions([Mention]) == 1;
    r := board.AdjustScores("U1", "G1", 50, [Mention], "P1");
    assert Select(board.scores, "G1", "P1") == [Record("G1", "P1", "Alice", 50)];
    r := board.SetScores("U1", "G1", 10, [Mention], "P1");
    assert Select(board.scores, "G1", "P1") == [Record("G1", "P1", "Alice", 10)];
    ghost var before := board.scores;
    r := board.DeletePlayer("U2", "G1", Mention, "P1");
    assert r == Denied && board.scores == before;
    r := board.DeletePlayer("U1", "G1", Mention, "P1");
    assert r == PlayerRemoved("P1", 10);
    assert Select(board.scores, "G1", "P1") == [];
  }
}
