/**
 * The `scoreboard` table: rows `{guildId, playerId, name, score}` (the store's
 * auto-increment `id` plays no part in any decision). The table is a sequence of
 * rows in storage order, and the three store calls the plugin makes on it are
 * functions on that sequence: `get` with a (guild, player) filter is `Select`,
 * `remove` with a filter is `Filter` keeping the complement, and `set` with a
 * filter is `SetScore`. `Unique` is the invariant that at most one row exists
 * per (guild, player) key.
 */
module ScoreTable {

  datatype Record = Record(guildId: string, playerId: string, name: string, score: int)

  predicate HasKey(r: Record, guild: string, player: string)
  {
    r.guildId == guild && r.playerId == player
  }

  /** The rows a `get` filtered by guild and player returns, in storage order. */
  function Select(t: seq<Record>, guild: string, player: string): seq<Record>
  {
    if t == [] then []
    else (if HasKey(t[0], guild, player) then [t[0]] else []) + Select(t[1..], guild, player)
  }

  /** The rows that satisfy `keep`, in storage order: what a `remove` of the other rows leaves. */
  function Filter(t: seq<Record>, keep: Record -> bool): seq<Record>
  {
    if t == [] then []
    else (if keep(t[0]) then [t[0]] else []) + Filter(t[1..], keep)
  }

  /** `remove` filtered by guild and player. */
  function RemovePlayer(t: seq<Record>, guild: string, player: string): seq<Record>
  {
    Filter(t, x => !HasKey(x, guild, player))
  }

  /** `remove` filtered by guild only. */
  function ClearGuild(t: seq<Record>, guild: string): seq<Record>
  {
    Filter(t, (x: Record) => x.guildId != guild)
  }

  /** `set` filtered by guild and player: every matching row gets the new score, all else stays. */
  function SetScore(t: seq<Record>, guild: string, player: string, score: int): (u: seq<Record>)
    ensures |u| == |t|
  {
    if t == [] then []
    else [if HasKey(t[0], guild, player) then t[0].(score := score) else t[0]]
         + SetScore(t[1..], guild, player, score)
  }

  /** At most one row per (guild, player). */
  ghost predicate Unique(t: seq<Record>)
  {
    forall guild, player :: |Select(t, guild, player)| <= 1
  }

  /** A `get` returns exactly the rows of the key. */
  lemma {:induction false} SelectMembers(t: seq<Record>, guild: string, player: string)
    ensures forall x :: x in Select(t, guild, player) <==> x in t && HasKey(x, guild, player)
  {
    if t != [] {
      SelectMembers(t[1..], guild, player);
      assert t == [t[0]] + t[1..];
    }
  }

  /** A filter keeps exactly the rows that satisfy it, and never more rows than there were. */
  lemma {:induction false} FilterMembers(t: seq<Record>, keep: Record -> bool)
    ensures forall x :: x in Filter(t, keep) <==> x in t && keep(x)
    ensures |Filter(t, keep)| <= |t|
  {
    if t != [] {
      FilterMembers(t[1..], keep);
      assert t == [t[0]] + t[1..];
    }
  }

  lemma {:induction false} SelectConcat(a: seq<Record>, b: seq<Record>, guild: string, player: string)
    ensures Select(a + b, guild, player) == Select(a, guild, player) + Select(b, guild, player)
  {
    if a != [] {
      assert (a + b)[0] == a[0] && (a + b)[1..] == a[1..] + b;
      SelectConcat(a[1..], b, guild, player);
      var head := if HasKey(a[0], guild, player) then [a[0]] else [];
      assert Select(a + b, guild, player) == head + Select(a[1..] + b, guild, player);
      assert Select(a, guild, player) == head + Select(a[1..], guild, player);
    } else {
      assert a + b == b;
    }
  }

  lemma {:induction false} FilterConcat(a: seq<Record>, b: seq<Record>, keep: Record -> bool)
    ensures Filter(a + b, keep) == Filter(a, keep) + Filter(b, keep)
  {
    if a != [] {
      assert (a + b)[0] == a[0] && (a + b)[1..] == a[1..] + b;
      FilterConcat(a[1..], b, keep);
      var head := if keep(a[0]) then [a[0]] else [];
      assert Filter(a + b, keep) == head + Filter(a[1..] + b, keep);
      assert Filter(a, keep) == head + Filter(a[1..], keep);
    } else {
      assert a + b == b;
    }
  }

  /** Selecting from a filtered table is filtering the selection. */
  lemma {:induction false} SelectFilter(t: seq<Record>, keep: Record -> bool, guild: string, player: string)
    ensures Select(Filter(t, keep), guild, player) == Filter(Select(t, guild, player), keep)
  {
    if t != [] {
      var head := if keep(t[0]) then [t[0]] else [];
      SelectConcat(head, Filter(t[1..], keep), guild, player);
      FilterConcat(if HasKey(t[0], guild, player) then [t[0]] else [], Select(t[1..], guild, player), keep);
      SelectFilter(t[1..], keep, guild, player);
    }
  }

  /** A filter that keeps every row is the identity. */
  lemma {:induction false} FilterKeepsAll(t: seq<Record>, keep: Record -> bool)
    requires forall x :: x in t ==> keep(x)
    ensures Filter(t, keep) == t
  {
    if t != [] {
      FilterKeepsAll(t[1..], keep);
    }
  }

  /** A filter that keeps no row leaves nothing. */
  lemma {:induction false} FilterDropsAll(t: seq<Record>, keep: Record -> bool)
    requires forall x :: x in t ==> !keep(x)
    ensures Filter(t, keep) == []
  {
    if t != [] {
      FilterDropsAll(t[1..], keep);
    }
  }

  /** Removing rows never creates a second row for a key. */
  lemma FilterUnique(t: seq<Record>, keep: Record -> bool)
    requires Unique(t)
    ensures Unique(Filter(t, keep))
  {
    forall guild, player ensures |Select(Filter(t, keep), guild, player)| <= 1 {
      SelectFilter(t, keep, guild, player);
      FilterMembers(Select(t, guild, player), keep);
    }
  }

  /** `set` on one key leaves the rows of every other key exactly as they were. */
  lemma {:induction false} SelectSetScoreOther(t: seq<Record>, guild: string, player: string, score: int, g: string, p: string)
    requires g != guild || p != player
    ensures Select(SetScore(t, guild, player, score), g, p) == Select(t, g, p)
  {
    if t != [] {
      SelectSetScoreOther(t[1..], guild, player, score, g, p);
    }
  }

  /** `set` on a key whose row exists rewrites that row's score and nothing else of it. */
  lemma {:induction false} SelectSetScoreSame(t: seq<Record>, guild: string, player: string, score: int)
    ensures Select(SetScore(t, guild, player, score), guild, player) == SetScore(Select(t, guild, player), guild, player, score)
  {
    if t != [] {
      SelectSetScoreSame(t[1..], guild, player, score);
      var u := SetScore(t, guild, player, score);
      assert u[0] == (if HasKey(t[0], guild, player) then t[0].(score := score) else t[0]);
      assert u[1..] == SetScore(t[1..], guild, player, score);
      assert Select(u, guild, player)
        == (if HasKey(t[0], guild, player) then [u[0]] else []) + Select(u[1..], guild, player);
      if HasKey(t[0], guild, player) {
        var rest := Select(t[1..], guild, player);
        assert Select(t, guild, player) == [t[0]] + rest;
        assert ([t[0]] + rest)[0] == t[0] && ([t[0]] + rest)[1..] == rest;
      } else {
        assert Select(t, guild, player) == Select(t[1..], guild, player);
      }
    }
  }

  lemma SetScoreUnique(t: seq<Record>, guild: string, player: string, score: int)
    requires Unique(t)
    ensures Unique(SetScore(t, guild, player, score))
  {
    forall g, p ensures |Select(SetScore(t, guild, player, score), g, p)| <= 1 {
      if g == guild && p == player {
        SelectSetScoreSame(t, guild, player, score);
      } else {
        SelectSetScoreOther(t, guild, player, score, g, p);
      }
    }
  }

  /**
   * Creating a row for a key that has none keeps `Unique`, makes that row the
   * one a `get` of the key returns, and changes no other key's rows.
   */
  lemma CreateFresh(t: seq<Record>, r: Record)
    requires Unique(t)
    requires Select(t, r.guildId, r.playerId) == []
    ensures Unique(t + [r])
    ensures Select(t + [r], r.guildId, r.playerId) == [r]
    ensures forall g, p :: !HasKey(r, g, p) ==> Select(t + [r], g, p) == Select(t, g, p)
  {
    forall g, p ensures Select(t + [r], g, p) == Select(t, g, p) + (if HasKey(r, g, p) then [r] else []) {
      SelectConcat(t, [r], g, p);
      assert Select([r], g, p) == (if HasKey(r, g, p) then [r] else []) + Select([], g, p);
    }
  }

  /**
   * After `remove` of one key no row of that key is left, and every other
   * key keeps exactly its rows.
   */
  lemma RemovePlayerEffect(t: seq<Record>, guild: string, player: string)
    ensures Select(RemovePlayer(t, guild, player), guild, player) == []
    ensures forall g, p :: g != guild || p != player ==>
      Select(RemovePlayer(t, guild, player), g, p) == Select(t, g, p)
  {
    var keep := (x: Record) => !HasKey(x, guild, player);
    SelectFilter(t, keep, guild, player);
    SelectMembers(t, guild, player);
    FilterDropsAll(Select(t, guild, player), keep);
    forall g, p | g != guild || p != player
      ensures Select(RemovePlayer(t, guild, player), g, p) == Select(t, g, p)
    {
      SelectFilter(t, keep, g, p);
      SelectMembers(t, g, p);
      FilterKeepsAll(Select(t, g, p), keep);
    }
  }

  /**
   * Clearing a guild leaves no row of that guild, every other guild keeps
   * exactly its rows, and clearing twice is clearing once.
   */
  lemma ClearGuildEffect(t: seq<Record>, guild: string)
    ensures forall p :: Select(ClearGuild(t, guild), guild, p) == []
    ensures forall g, p :: g != guild ==> Select(ClearGuild(t, guild), g, p) == Select(t, g, p)
    ensures ClearGuild(ClearGuild(t, guild), guild) == ClearGuild(t, guild)
  {
    var keep := (x: Record) => x.guildId != guild;
    forall g, p ensures Select(ClearGuild(t, guild), g, p) == (if g == guild then [] else Select(t, g, p)) {
      SelectFilter(t, keep, g, p);
      SelectMembers(t, g, p);
      if g != guild {
        FilterKeepsAll(Select(t, g, p), keep);
      } else {
        FilterDropsAll(Select(t, g, p), keep);
      }
    }
    FilterMembers(t, keep);
    FilterKeepsAll(ClearGuild(t, guild), keep);
  }
}
