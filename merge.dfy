/**
 * The in-memory part of fetching a user's chats: the results of the
 * `user1` index get the `user2` index's results appended (`AddRange`), and then
 * the combined list is ordered by `updateDt` with a stable sort (LINQ `OrderBy`).
 */
module Merge {
  import opened ChatModel

  /** A mutable list of chats; the model of the `List<Chat>` the first query returns. */
  class ChatList {
    var items: seq<Chat>

    constructor (initial: seq<Chat>)
      ensures items == initial
    {
      items := initial;
    }

    /** Appends `other` at the end, keeping both orders and every duplicate. */
    method AddRange(other: seq<Chat>)
      modifies this
      ensures items == old(items) + other
    {
      items := items + other;
    }
  }

  /** Non-decreasing by `updateDt`. */
  ghost predicate Sorted(s: seq<Chat>)
  {
    forall i, j :: 0 <= i < j < |s| ==> s[i].updateDt <= s[j].updateDt
  }

  /** The records with `updateDt == k`, in the order they appear in `s`. */
  function KeyFilter(s: seq<Chat>, k: int): seq<Chat>
  {
    if s == [] then []
    else KeyFilter(s[..|s| - 1], k) + (if s[|s| - 1].updateDt == k then [s[|s| - 1]] else [])
  }

  /**
   * Inserts `x` into a sorted list after every record whose key is at most
   * `x`'s key: a stable insertion.
   */
  function Insert(t: seq<Chat>, x: Chat): (r: seq<Chat>)
    ensures |r| == |t| + 1
    ensures multiset(r) == multiset(t) + multiset{x}
  {
    if t == [] || t[|t| - 1].updateDt <= x.updateDt then t + [x]
    else
      assert t == t[..|t| - 1] + [t[|t| - 1]];
      Insert(t[..|t| - 1], x) + [t[|t| - 1]]
  }

  /**
   * `OrderBy(x => x.UpdateDt)`: a stable sort, written as insertion of each
   * record, in input order, into the sorted prefix before it.
   */
  function OrderByUpdateDt(s: seq<Chat>): (r: seq<Chat>)
    ensures |r| == |s|
    ensures multiset(r) == multiset(s)
  {
    if s == [] then []
    else
      assert s == s[..|s| - 1] + [s[|s| - 1]];
      Insert(OrderByUpdateDt(s[..|s| - 1]), s[|s| - 1])
  }

  /** Keys bounded by `m` stay bounded by `m` after an insertion of a key bounded by `m`. */
  lemma {:induction false} InsertBounded(t: seq<Chat>, x: Chat, m: int)
    requires forall i :: 0 <= i < |t| ==> t[i].updateDt <= m
    requires x.updateDt <= m
    ensures forall i :: 0 <= i < |Insert(t, x)| ==> Insert(t, x)[i].updateDt <= m
  {
    if t == [] || t[|t| - 1].updateDt <= x.updateDt {
    } else {
      InsertBounded(t[..|t| - 1], x, m);
    }
  }

  lemma SortedAppend(u: seq<Chat>, y: Chat)
    requires Sorted(u)
    requires forall i :: 0 <= i < |u| ==> u[i].updateDt <= y.updateDt
    ensures Sorted(u + [y])
  {
  }

  lemma {:induction false} InsertSorted(t: seq<Chat>, x: Chat)
    requires Sorted(t)
    ensures Sorted(Insert(t, x))
  {
    if t == [] || t[|t| - 1].updateDt <= x.updateDt {
      SortedAppend(t, x);
    } else {
      var t', y := t[..|t| - 1], t[|t| - 1];
      InsertSorted(t', x);
      InsertBounded(t', x, y.updateDt);
      SortedAppend(Insert(t', x), y);
    }
  }

  lemma KeyFilterAppendOne(s: seq<Chat>, x: Chat, k: int)
    ensures KeyFilter(s + [x], k) == KeyFilter(s, k) + (if x.updateDt == k then [x] else [])
  {
    assert (s + [x])[..|s + [x]| - 1] == s;
  }

  /** Records of one key leave the insertion in the order they entered it. */
  lemma {:induction false} InsertKeyFilter(t: seq<Chat>, x: Chat, k: int)
    ensures KeyFilter(Insert(t, x), k) == KeyFilter(t, k) + (if x.updateDt == k then [x] else [])
  {
    if t == [] || t[|t| - 1].updateDt <= x.updateDt {
      KeyFilterAppendOne(t, x, k);
    } else {
      var t', y := t[..|t| - 1], t[|t| - 1];
      InsertKeyFilter(t', x, k);
      KeyFilterAppendOne(Insert(t', x), y, k);
    }
  }

  /** `OrderByUpdateDt` returns a list sorted by `updateDt`. */
  lemma {:induction false} OrderByIsSorted(s: seq<Chat>)
    ensures Sorted(OrderByUpdateDt(s))
  {
    if s != [] {
      OrderByIsSorted(s[..|s| - 1]);
      InsertSorted(OrderByUpdateDt(s[..|s| - 1]), s[|s| - 1]);
    }
  }

  /** `OrderByUpdateDt` is stable: records of equal key keep their input order. */
  lemma {:induction false} OrderByIsStable(s: seq<Chat>, k: int)
    ensures KeyFilter(OrderByUpdateDt(s), k) == KeyFilter(s, k)
  {
    if s != [] {
      OrderByIsStable(s[..|s| - 1], k);
      InsertKeyFilter(OrderByUpdateDt(s[..|s| - 1]), s[|s| - 1], k);
    }
  }

  lemma {:induction false} KeyFilterConcat(a: seq<Chat>, b: seq<Chat>, k: int)
    ensures KeyFilter(a + b, k) == KeyFilter(a, k) + KeyFilter(b, k)
  {
    if b == [] {
      assert a + b == a;
    } else {
      var b', y := b[..|b| - 1], b[|b| - 1];
      assert a + b == (a + b') + [y];
      KeyFilterAppendOne(a + b', y, k);
      KeyFilterConcat(a, b', k);
    }
  }

  lemma {:induction false} KeyFilterLast(s: seq<Chat>)
    requires s != []
    ensures var f := KeyFilter(s, s[|s| - 1].updateDt); f != [] && f[|f| - 1] == s[|s| - 1]
  {
  }

  lemma {:induction false} KeyFilterNone(s: seq<Chat>, k: int)
    requires forall i :: 0 <= i < |s| ==> s[i].updateDt != k
    ensures KeyFilter(s, k) == []
  {
    if s != [] {
      KeyFilterNone(s[..|s| - 1], k);
    }
  }

  /** A record whose key is `k` appears in `KeyFilter(s, k)` exactly where expected. */
  lemma {:induction false} KeyFilterHas(s: seq<Chat>, i: int)
    requires 0 <= i < |s|
    ensures KeyFilter(s, s[i].updateDt) != []
  {
    if i == |s| - 1 {
      KeyFilterLast(s);
    } else {
      assert s[..|s| - 1][i] == s[i];
      KeyFilterHas(s[..|s| - 1], i);
    }
  }

  /**
   * Of two sorted lists that agree on the records of their two last keys, the
   * last records agree: each carries the largest key of its list.
   */
  lemma LastRecordsAgree(a: seq<Chat>, b: seq<Chat>)
    requires Sorted(a) && Sorted(b) && a != [] && b != []
    requires KeyFilter(a, a[|a| - 1].updateDt) == KeyFilter(b, a[|a| - 1].updateDt)
    requires KeyFilter(a, b[|b| - 1].updateDt) == KeyFilter(b, b[|b| - 1].updateDt)
    ensures a[|a| - 1] == b[|b| - 1]
  {
    var x, y := a[|a| - 1], b[|b| - 1];
    KeyFilterLast(a);
    KeyFilterLast(b);
    assert x.updateDt <= y.updateDt by {
      if y.updateDt < x.updateDt {
        KeyAboveLastAbsent(b, x.updateDt);
      }
    }
    assert y.updateDt <= x.updateDt by {
      if x.updateDt < y.updateDt {
        KeyAboveLastAbsent(a, y.updateDt);
      }
    }
  }

  /** A sorted list has no record of a key above its last record's key. */
  lemma KeyAboveLastAbsent(s: seq<Chat>, k: int)
    requires Sorted(s) && s != []
    requires s[|s| - 1].updateDt < k
    ensures KeyFilter(s, k) == []
  {
    KeyFilterNone(s, k);
  }

  /** A common last record can be cancelled from the records of each key. */
  lemma KeyFilterCancelLast(p: seq<Chat>, q: seq<Chat>, x: Chat, k: int)
    requires KeyFilter(p + [x], k) == KeyFilter(q + [x], k)
    ensures KeyFilter(p, k) == KeyFilter(q, k)
  {
    KeyFilterAppendOne(p, x, k);
    KeyFilterAppendOne(q, x, k);
    var fp, fq := KeyFilter(p, k), KeyFilter(q, k);
    if x.updateDt == k {
      assert fp == (fp + [x])[..|fp|];
      assert fq == (fq + [x])[..|fq|];
    } else {
      assert fp + [] == fp && fq + [] == fq;
    }
  }

  /**
   * Sortedness and per-key order determine a list: any list sorted by
   * `updateDt` whose equal-key records appear in the same order as `b`'s is `b`.
   * Together with `OrderByIsSorted` and `OrderByIsStable` this says
   * `OrderByUpdateDt` is THE stable sort by `updateDt`.
   */
  lemma {:induction false} StableSortUnique(a: seq<Chat>, b: seq<Chat>)
    requires Sorted(a) && Sorted(b)
    requires forall k :: KeyFilter(a, k) == KeyFilter(b, k)
    ensures a == b
    decreases |a| + |b|
  {
    if a == [] && b == [] {
    } else if a == [] {
      KeyFilterHas(b, |b| - 1);
      assert false;
    } else if b == [] {
      KeyFilterHas(a, |a| - 1);
      assert false;
    } else {
      var x := a[|a| - 1];
      var a', b' := a[..|a| - 1], b[..|b| - 1];
      assert KeyFilter(a, x.updateDt) == KeyFilter(b, x.updateDt);
      assert KeyFilter(a, b[|b| - 1].updateDt) == KeyFilter(b, b[|b| - 1].updateDt);
      LastRecordsAgree(a, b);
      assert a == a' + [x] && b == b' + [x];
      forall k ensures KeyFilter(a', k) == KeyFilter(b', k) {
        assert KeyFilter(a, k) == KeyFilter(b, k);
        KeyFilterCancelLast(a', b', x, k);
      }
      StableSortUnique(a', b');
    }
  }

  /** No record of `Insert(t, x)` has the id `id` unless `t` or `x` has it. */
  lemma {:induction false} InsertAvoidsId(t: seq<Chat>, x: Chat, id: string)
    requires forall i :: 0 <= i < |t| ==> t[i].chatId != id
    requires x.chatId != id
    ensures forall i :: 0 <= i < |Insert(t, x)| ==> Insert(t, x)[i].chatId != id
  {
    if t == [] || t[|t| - 1].updateDt <= x.updateDt {
    } else {
      InsertAvoidsId(t[..|t| - 1], x, id);
    }
  }

  lemma {:induction false} InsertKeepsDistinctIds(t: seq<Chat>, x: Chat)
    requires DistinctChatIds(t)
    requires x.chatId != ""
    requires forall i :: 0 <= i < |t| ==> t[i].chatId != x.chatId
    ensures DistinctChatIds(Insert(t, x))
  {
    if t == [] || t[|t| - 1].updateDt <= x.updateDt {
    } else {
      var t', y := t[..|t| - 1], t[|t| - 1];
      InsertKeepsDistinctIds(t', x);
      InsertAvoidsId(t', x, y.chatId);
    }
  }

  lemma {:induction false} OrderByAvoidsId(s: seq<Chat>, id: string)
    requires forall i :: 0 <= i < |s| ==> s[i].chatId != id
    ensures forall i :: 0 <= i < |OrderByUpdateDt(s)| ==> OrderByUpdateDt(s)[i].chatId != id
  {
    if s != [] {
      OrderByAvoidsId(s[..|s| - 1], id);
      InsertAvoidsId(OrderByUpdateDt(s[..|s| - 1]), s[|s| - 1], id);
    }
  }

  /** Sorting neither invents nor duplicates a chat id. */
  lemma {:induction false} OrderByKeepsDistinctIds(s: seq<Chat>)
    requires DistinctChatIds(s)
    ensures DistinctChatIds(OrderByUpdateDt(s))
  {
    if s != [] {
      var s', x := s[..|s| - 1], s[|s| - 1];
      OrderByKeepsDistinctIds(s');
      OrderByAvoidsId(s', x.chatId);
      InsertKeepsDistinctIds(OrderByUpdateDt(s'), x);
    }
  }

  /**
   * `GetAllChats` without the two queries: `user1Results.AddRange(user2Results)`
   * and then `OrderBy(x => x.UpdateDt)`. The result holds every record of both
   * inputs, duplicates included, sorted by `updateDt`; among records with the
   * same `updateDt` the `user1` records come first, each group in its own order.
   */
  method GetAllChats(user1Results: seq<Chat>, user2Results: seq<Chat>) returns (chats: seq<Chat>)
    ensures chats == OrderByUpdateDt(user1Results + user2Results)
    ensures |chats| == |user1Results| + |user2Results|
    ensures multiset(chats) == multiset(user1Results) + multiset(user2Results)
    ensures Sorted(chats)
    ensures forall k :: KeyFilter(chats, k) == KeyFilter(user1Results, k) + KeyFilter(user2Results, k)
  {
    var combined := new ChatList(user1Results);
    combined.AddRange(user2Results);
    chats := OrderByUpdateDt(combined.items);
    OrderByIsSorted(combined.items);
    forall k ensures KeyFilter(chats, k) == KeyFilter(user1Results, k) + KeyFilter(user2Results, k) {
      OrderByIsStable(combined.items, k);
      KeyFilterConcat(user1Results, user2Results, k);
    }
  }
}
