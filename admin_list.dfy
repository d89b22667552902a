/**
 * The `scoreboardAdmins` table: for each guild at most one list of admin ids,
 * which may be missing altogether (no row yet) or present and empty. This
 * module gives the list a successful add or remove command leaves behind, and
 * the facts about those lists the commands rely on.
 *
 * Both commands look a user up in, and add them to, the list under a KEY. The
 * source computes that key as `qqnum[0]`, the first character of the mentioned
 * id (`AdminKey`), while the very first add of a guild stores the id itself.
 * The lemmas below are stated for both keys: for the first-character key they
 * exhibit what goes wrong, for the whole id they give the intended behaviour.
 */
module AdminList {
  import opened Options

  /** No id occurs twice. */
  predicate Distinct(s: seq<string>)
  {
    forall i, j :: 0 <= i < j < |s| ==> s[i] != s[j]
  }

  /** `qqnum[0]`: the first character of an id, as a one-character string. */
  function AdminKey(id: string): (k: string)
    ensures |id| > 0 ==> |k| == 1 && k[0] == id[0]
    ensures |id| > 0 ==> (k == id <==> |id| == 1)
  {
    if |id| == 0 then "" else id[..1]
  }

  /** `indexOf`: the position of the first occurrence of `x`. */
  function IndexOf(s: seq<string>, x: string): (i: nat)
    requires x in s
    ensures i < |s| && s[i] == x
    ensures x !in s[..i]
  {
    if s[0] == x then 0
    else
      assert x in s[1..];
      var j := IndexOf(s[1..], x);
      assert s[..j + 1] == [s[0]] + s[1..][..j];
      j + 1
  }

  /** `splice(indexOf(x), 1)`: the list with its first `x` taken out. */
  function RemoveFirst(s: seq<string>, x: string): (r: seq<string>)
    requires x in s
    ensures |r| == |s| - 1
    ensures multiset(r) == multiset(s) - multiset{x}
  {
    var i := IndexOf(s, x);
    assert s == s[..i] + [s[i]] + s[i + 1..];
    s[..i] + s[i + 1..]
  }

  /**
   * The list a permitted add of the user `id` under `key` leaves: a missing
   * list is created holding the id; a list that already holds the key is kept;
   * any other list gets the key appended.
   */
  function AddedList(list: Option<seq<string>>, id: string, key: string): seq<string>
  {
    match list
    case None => [id]
    case Some(l) => if key in l then l else l + [key]
  }

  /** Adding never breaks `Distinct`, and the key or (on creation) the id is in the list afterwards. */
  lemma AddedListDistinct(list: Option<seq<string>>, id: string, key: string)
    requires list.Some? ==> Distinct(list.value)
    ensures Distinct(AddedList(list, id, key))
    ensures list.None? ==> AddedList(list, id, key) == [id]
    ensures list.Some? ==> key in AddedList(list, id, key)
  {
  }

  /**
   * Removing the first occurrence keeps everything before it and everything
   * after it, in order; in a list without duplicates it takes out exactly
   * that one id and keeps the list free of duplicates.
   */
  lemma {:induction false} RemoveFirstSplices(s: seq<string>, x: string)
    requires x in s
    ensures RemoveFirst(s, x) == s[..IndexOf(s, x)] + s[IndexOf(s, x) + 1..]
    ensures x !in s[..IndexOf(s, x)]
    ensures Distinct(s) ==> Distinct(RemoveFirst(s, x)) && x !in RemoveFirst(s, x)
    ensures Distinct(s) ==> forall y :: y != x ==> (y in RemoveFirst(s, x) <==> y in s)
  {
    var i := IndexOf(s, x);
    var r := RemoveFirst(s, x);
    if Distinct(s) {
      forall a, b | 0 <= a < b < |r| ensures r[a] != r[b] {
        var a' := if a < i then a else a + 1;
        var b' := if b < i then b else b + 1;
        assert r[a] == s[a'] && r[b] == s[b'];
      }
      forall y | y != x ensures y in r <==> y in s {
        assert y in multiset(r) <==> y in multiset(s);
      }
    }
  }

  /** In a list without duplicates a member occurs exactly once. */
  lemma {:induction false} DistinctOnce(s: seq<string>, x: string)
    requires Distinct(s) && x in s
    ensures multiset(s)[x] == 1
  {
    assert s == [s[0]] + s[1..];
    assert Distinct(s[1..]) by {
      forall i, j | 0 <= i < j < |s[1..]| ensures s[1..][i] != s[1..][j] {
        assert s[1..][i] == s[i + 1] && s[1..][j] == s[j + 1];
      }
    }
    if s[0] == x {
      assert x !in s[1..] by {
        forall k | 0 <= k < |s[1..]| ensures s[1..][k] != x {
          assert s[1..][k] == s[k + 1];
        }
      }
    } else {
      DistinctOnce(s[1..], x);
    }
  }

  /**
   * With the whole id as key, adding is idempotent: a second add of the same
   * user changes nothing, and the user occurs exactly once in the list.
   */
  lemma AddAdminIdempotent(list: Option<seq<string>>, id: string)
    requires list.Some? ==> Distinct(list.value)
    ensures AddedList(Some(AddedList(list, id, id)), id, id) == AddedList(list, id, id)
    ensures multiset(AddedList(list, id, id))[id] == 1
  {
    AddedListDistinct(list, id, id);
    DistinctOnce(AddedList(list, id, id), id);
  }

  /**
   * With the whole id as key, removing a user just added restores the list
   * they were added to (and a list created by the add becomes empty).
   */
  lemma RemoveAfterAdd(list: Option<seq<string>>, id: string)
    requires list.Some? ==> Distinct(list.value) && id !in list.value
    ensures id in AddedList(list, id, id)
    ensures RemoveFirst(AddedList(list, id, id), id) == list.GetOr([])
  {
    var l := AddedList(list, id, id);
    var base := list.GetOr([]);
    assert l == base + [id];
    assert IndexOf(l, id) == |base|;
    assert l[..|base|] == base;
  }

  /**
   * Removing a guild's only admin leaves the guild with an EMPTY list, not
   * with no list: the next add then appends its key instead of creating the
   * list holding the whole id, as it would for a guild that never had one.
   */
  lemma RemoveLastKeepsList(key: string, id: string, next: string)
    ensures RemoveFirst([key], key) == []
    ensures AddedList(Some(RemoveFirst([key], key)), id, next) == [next]
    ensures AddedList(None, id, next) == [id]
  {
  }

  /**
   * As written, with the first character as key, a guild's first admin can
   * never be found again: adding them a second time appends a second entry
   * instead of reporting them present, and they are not in the list a remove
   * looks them up in.
   */
  lemma AsWrittenReAddDuplicates(id: string)
    requires |id| >= 2
    ensures AdminKey(id) !in AddedList(None, id, AdminKey(id))
    ensures AddedList(Some(AddedList(None, id, AdminKey(id))), id, AdminKey(id)) == [id, AdminKey(id)]
  {
  }

  /** A concrete instance: adding "10001" twice leaves ["10001", "1"]. */
  lemma AsWrittenExample()
    ensures AddedList(Some(AddedList(None, "10001", AdminKey("10001"))), "10001", AdminKey("10001")) == ["10001", "1"]
  {
    AsWrittenReAddDuplicates("10001");
    assert AdminKey("10001") == "1";
  }

  /**
   * As written, the whole-id entry can never be removed: straight after the
   * first add the remove finds nothing under "1", and after a second add it
   * takes out the appended "1" and leaves `["10001"]`.
   */
  lemma AsWrittenRemoveMissesFirst()
    ensures AdminKey("10001") !in AddedList(None, "10001", AdminKey("10001"))
    ensures var l := AddedList(Some(AddedList(None, "10001", AdminKey("10001"))), "10001", AdminKey("10001"));
      AdminKey("10001") in l && RemoveFirst(l, AdminKey("10001")) == ["10001"]
  {
    AsWrittenExample();
    var l := ["10001", "1"];
    assert IndexOf(l, "1") == 1;
    assert l[..1] == ["10001"] && l[2..] == [];
  }
}
