/**
 * The page cut out of the projected, time-ordered list: with no cursor the
 * first `pageSize` items; with a cursor, skip while the chat id differs from
 * it, skip the matching item, then take `pageSize` items.
 */
module Pagination {
  import opened Wrappers
  import opened ChatModel

  function Min(a: int, b: int): int { if a <= b then a else b }

  /** `string.IsNullOrEmpty`: `None` stands for a null reference. */
  predicate IsNullOrEmpty(s: Option<string>)
    ensures IsNullOrEmpty(s) <==> s == None || s == Some("")
  {
    s.None? || s.value == ""
  }

  /** LINQ `Take(n)`: the first `n` elements, all of them when there are fewer, none when `n <= 0`. */
  function Take<T>(s: seq<T>, n: int): (r: seq<T>)
    ensures |r| == if n <= 0 then 0 else Min(n, |s|)
    ensures r == s[..|r|]
  {
    if n <= 0 || s == [] then [] else [s[0]] + Take(s[1..], n - 1)
  }

  /** LINQ `Skip(n)`: drops the first `n` elements, all of them when there are fewer. */
  function Skip<T>(s: seq<T>, n: int): (r: seq<T>)
    ensures r == s[if n <= 0 then 0 else Min(n, |s|)..]
  {
    if n <= 0 || s == [] then s else Skip(s[1..], n - 1)
  }

  /** `SkipWhile(r => r.ChatId != id)`: drops items while their chat id is not `id`. */
  function SkipWhileNotId(s: seq<ResponseItem>, id: string): (r: seq<ResponseItem>)
    ensures |r| <= |s|
    ensures r != [] ==> r[0].chatId == id
  {
    if s == [] then []
    else if s[0].chatId != id then SkipWhileNotId(s[1..], id)
    else s
  }

  /**
   * What `SkipWhile` leaves: a suffix that starts with the first item whose
   * chat id is `id`, or nothing when no item has that id.
   */
  lemma {:induction false} SkipWhileNotIdSuffix(s: seq<ResponseItem>, id: string)
    ensures var r := SkipWhileNotId(s, id);
            |r| <= |s| && r == s[|s| - |r|..] &&
            (r != [] ==> r[0].chatId == id) &&
            forall i :: 0 <= i < |s| - |r| ==> s[i].chatId != id
  {
    if s != [] && s[0].chatId != id {
      SkipWhileNotIdSuffix(s[1..], id);
      var r := SkipWhileNotId(s, id);
      assert s[1..][|s| - 1 - |r|..] == s[|s| - |r|..];
      forall i | 0 <= i < |s| - |r| ensures s[i].chatId != id {
        if i > 0 {
          assert s[1..][i - 1] == s[i];
        }
      }
    }
  }

  /** The index of the first item whose chat id is `id`, if any. */
  function IndexOfId(s: seq<ResponseItem>, id: string): (r: Option<nat>)
    ensures r.Some? ==> r.value < |s|
  {
    if s == [] then None
    else if s[0].chatId == id then Some(0)
    else match IndexOfId(s[1..], id)
      case None => None
      case Some(i) => Some(i + 1)
  }

  /** `IndexOfId` finds the first match, and finds none only when no item matches. */
  lemma {:induction false} IndexOfIdFirst(s: seq<ResponseItem>, id: string)
    ensures var r := IndexOfId(s, id);
            (r.Some? ==> s[r.value].chatId == id && forall i :: 0 <= i < r.value ==> s[i].chatId != id) &&
            (r.None? ==> forall i :: 0 <= i < |s| ==> s[i].chatId != id)
  {
    if s != [] && s[0].chatId != id {
      IndexOfIdFirst(s[1..], id);
      forall i | 0 < i < |s| ensures s[1..][i - 1] == s[i] {
      }
    }
  }

  /**
   * Where the page starts: at the front without a cursor, right after the first
   * item carrying the cursor, or past the end when no item carries it.
   */
  function PageStart(items: seq<ResponseItem>, lastId: Option<string>): (k: nat)
    ensures k <= |items|
  {
    if IsNullOrEmpty(lastId) then 0
    else match IndexOfId(items, lastId.value)
      case Some(i) => i + 1
      case None => |items|
  }

  /** The page as the handler computes it (`Take`, or `SkipWhile`, `Skip(1)`, `Take`). */
  function Paginate(items: seq<ResponseItem>, pageSize: int, lastId: Option<string>): (page: seq<ResponseItem>)
    ensures |page| <= if pageSize <= 0 then 0 else pageSize
  {
    if IsNullOrEmpty(lastId) then Take(items, pageSize)
    else Take(Skip(SkipWhileNotId(items, lastId.value), 1), pageSize)
  }

  /** `SkipWhile` stops exactly at the item `IndexOfId` finds. */
  lemma {:induction false} SkipWhileAtIndex(s: seq<ResponseItem>, id: string)
    ensures SkipWhileNotId(s, id) == match IndexOfId(s, id)
                                      case Some(i) => s[i..]
                                      case None => []
  {
    if s != [] && s[0].chatId != id {
      SkipWhileAtIndex(s[1..], id);
      match IndexOfId(s[1..], id)
      case Some(i) => assert s[1..][i..] == s[i + 1..];
      case None =>
    }
  }

  /** Skipping the matched item and taking `pageSize` is the slice right after it. */
  lemma PageAfterMatch(items: seq<ResponseItem>, pageSize: int, i: nat)
    requires pageSize >= 0
    requires i < |items|
    ensures Take(Skip(items[i..], 1), pageSize) == items[i + 1..Min(i + 1 + pageSize, |items|)]
  {
    var rest := items[i + 1..];
    assert Skip(items[i..], 1) == rest;
    assert rest[..Min(pageSize, |rest|)] == items[i + 1..Min(i + 1 + pageSize, |items|)];
  }

  /** The page is exactly the slice of at most `pageSize` items from `PageStart`. */
  lemma PaginateIsSlice(items: seq<ResponseItem>, pageSize: int, lastId: Option<string>)
    requires pageSize >= 0
    ensures var k := PageStart(items, lastId);
            Paginate(items, pageSize, lastId) == items[k..Min(k + pageSize, |items|)]
  {
    if IsNullOrEmpty(lastId) {
      assert items[0..] == items;
    } else {
      SkipWhileAtIndex(items, lastId.value);
      match IndexOfId(items, lastId.value)
      case Some(i) => PageAfterMatch(items, pageSize, i);
      case None =>
    }
  }

  /** With a null or empty cursor the page is the first `min(pageSize, n)` items. */
  lemma NoCursorFirstPage(items: seq<ResponseItem>, pageSize: int, lastId: Option<string>)
    requires pageSize >= 0
    requires IsNullOrEmpty(lastId)
    ensures Paginate(items, pageSize, lastId) == items[..Min(pageSize, |items|)]
  {
  }

  /**
   * With a cursor, the page is the up-to-`pageSize` items right after the first
   * item whose chat id equals the cursor.
   */
  lemma CursorFoundPage(items: seq<ResponseItem>, pageSize: int, id: string, i: nat)
    requires pageSize >= 0 && id != ""
    requires i < |items| && items[i].chatId == id
    requires forall j :: 0 <= j < i ==> items[j].chatId != id
    ensures Paginate(items, pageSize, Some(id)) == items[i + 1..Min(i + 1 + pageSize, |items|)]
  {
    PaginateIsSlice(items, pageSize, Some(id));
    IndexOfIdFirst(items, id);
  }

  /** A cursor that no item carries gives an empty page, not an error. */
  lemma CursorMissEmptyPage(items: seq<ResponseItem>, pageSize: int, id: string)
    requires id != ""
    requires forall j :: 0 <= j < |items| ==> items[j].chatId != id
    ensures Paginate(items, pageSize, Some(id)) == []
  {
    IndexOfIdFirst(items, id);
    SkipWhileAtIndex(items, id);
  }

  /** With distinct ids, an item's own id finds that item. */
  lemma IndexOfDistinct(items: seq<ResponseItem>, e: nat)
    requires DistinctIds(items)
    requires e < |items|
    ensures IndexOfId(items, items[e].chatId) == Some(e)
  {
    IndexOfIdFirst(items, items[e].chatId);
  }

  /**
   * Every item's id is a usable cursor that leads back to that item: it is not
   * empty, and the search for it stops at that item.
   */
  ghost predicate CursorsResolve(items: seq<ResponseItem>)
  {
    forall e :: 0 <= e < |items| ==> ResolvesAt(items, e)
  }

  /** The id of item `e` is a non-empty cursor whose search stops at item `e`. */
  ghost predicate ResolvesAt(items: seq<ResponseItem>, e: int)
    requires 0 <= e < |items|
  {
    items[e].chatId != "" && IndexOfId(items, items[e].chatId) == Some(e)
  }

  /** Distinct, non-empty ids are usable cursors. */
  lemma DistinctIdsResolve(items: seq<ResponseItem>)
    requires DistinctIds(items)
    ensures CursorsResolve(items)
  {
    forall e | 0 <= e < |items|
      ensures ResolvesAt(items, e)
    {
      IndexOfDistinct(items, e);
    }
  }

  /**
   * When every id is a usable cursor (as with distinct, non-empty ids), the id
   * of the last item of a non-empty page, used as the next cursor, starts the next
   * page right where this one ended.
   */
  lemma NextCursorContinues(items: seq<ResponseItem>, pageSize: int, lastId: Option<string>)
    requires pageSize >= 1
    requires CursorsResolve(items)
    requires Paginate(items, pageSize, lastId) != []
    ensures var page := Paginate(items, pageSize, lastId);
            PageStart(items, Some(page[|page| - 1].chatId)) == PageStart(items, lastId) + |page|
  {
    PaginateIsSlice(items, pageSize, lastId);
    SliceLastCursor(items, PageStart(items, lastId), Min(PageStart(items, lastId) + pageSize, |items|));
  }

  /** The id of the last item of a non-empty slice, as a cursor, starts right after the slice. */
  lemma SliceLastCursor(items: seq<ResponseItem>, k: int, m: int)
    requires CursorsResolve(items)
    requires 0 <= k < m <= |items|
    ensures var page := items[k..m];
            PageStart(items, Some(page[|page| - 1].chatId)) == k + |page|
  {
    assert items[k..m][m - k - 1] == items[m - 1];
    assert ResolvesAt(items, m - 1);
  }

  /**
   * What a client collects in at most `rounds` requests by following the
   * cursors itself: request a page, then request again with the last item's id
   * as the cursor, until a page comes back empty. (The response's own token
   * only echoes the request's cursor.)
   */
  function Follow(items: seq<ResponseItem>, pageSize: int, lastId: Option<string>, rounds: nat): seq<ResponseItem>
    decreases rounds
  {
    if rounds == 0 then []
    else
      var page := Paginate(items, pageSize, lastId);
      if page == [] then []
      else page + Follow(items, pageSize, Some(page[|page| - 1].chatId), rounds - 1)
  }

  lemma SliceSplit<T>(s: seq<T>, k: int, m: int)
    requires 0 <= k <= m <= |s|
    ensures s[k..] == s[k..m] + s[m..]
  {
  }

  /**
   * One round of `Follow` on a non-empty page: the page is the slice from this
   * request's start to the next request's start.
   */
  lemma FollowStep(items: seq<ResponseItem>, pageSize: int, lastId: Option<string>, rounds: nat)
    requires pageSize >= 1
    requires CursorsResolve(items)
    requires rounds >= 1
    requires Paginate(items, pageSize, lastId) != []
    ensures var page := Paginate(items, pageSize, lastId);
            var next := Some(page[|page| - 1].chatId);
            PageStart(items, lastId) < PageStart(items, next) &&
            Follow(items, pageSize, lastId, rounds) ==
              items[PageStart(items, lastId)..PageStart(items, next)] + Follow(items, pageSize, next, rounds - 1)
  {
    var page := Paginate(items, pageSize, lastId);
    var next := Some(page[|page| - 1].chatId);
    assert Follow(items, pageSize, lastId, rounds) == page + Follow(items, pageSize, next, rounds - 1);
    PageSpansToNextCursor(items, pageSize, lastId);
  }

  /** A non-empty page is the slice from its own start to the start its last id gives. */
  lemma PageSpansToNextCursor(items: seq<ResponseItem>, pageSize: int, lastId: Option<string>)
    requires pageSize >= 1
    requires CursorsResolve(items)
    requires Paginate(items, pageSize, lastId) != []
    ensures var page := Paginate(items, pageSize, lastId);
            var next := Some(page[|page| - 1].chatId);
            PageStart(items, lastId) < PageStart(items, next) &&
            page == items[PageStart(items, lastId)..PageStart(items, next)]
  {
    PaginateIsSlice(items, pageSize, lastId);
    NextCursorContinues(items, pageSize, lastId);
  }

  /**
   * Following the cursors from any request yields every later item, once each,
   * in order, as soon as the client allows one request per remaining item.
   */
  lemma {:induction false} FollowFrom(items: seq<ResponseItem>, pageSize: int, lastId: Option<string>, rounds: nat)
    requires pageSize >= 1
    requires CursorsResolve(items)
    requires rounds >= |items| - PageStart(items, lastId)
    ensures Follow(items, pageSize, lastId, rounds) == items[PageStart(items, lastId)..]
    decreases rounds
  {
    var k := PageStart(items, lastId);
    var page := Paginate(items, pageSize, lastId);
    if page == [] {
      assert k == |items| by {
        PaginateIsSlice(items, pageSize, lastId);
      }
    } else {
      assert k < |items| by {
        PaginateIsSlice(items, pageSize, lastId);
      }
      var next := Some(page[|page| - 1].chatId);
      FollowStep(items, pageSize, lastId, rounds);
      FollowFrom(items, pageSize, next, rounds - 1);
      SliceSplit(items, k, PageStart(items, next));
    }
  }

  /**
   * Starting without a cursor, at most one request per item enumerates the
   * whole list: no gaps, no repeats.
   */
  lemma FollowEnumeratesAll(items: seq<ResponseItem>, pageSize: int)
    requires pageSize >= 1
    requires DistinctIds(items)
    ensures Follow(items, pageSize, None, |items|) == items
  {
    DistinctIdsResolve(items);
    FollowFrom(items, pageSize, None, |items|);
  }

  /**
   * Three merged items with ids "a", "b", "c" and a page size of 2: no cursor
   * gives [a, b], cursor "b" gives [c], cursor "c" gives an empty page.
   */
  lemma ThreeChatWalkthrough(a: ResponseItem, b: ResponseItem, c: ResponseItem)
    requires a.chatId == "a" && b.chatId == "b" && c.chatId == "c"
    ensures Paginate([a, b, c], 2, None) == [a, b]
    ensures Paginate([a, b, c], 2, Some("b")) == [c]
    ensures Paginate([a, b, c], 2, Some("c")) == []
  {
    NoCursorFirstPage([a, b, c], 2, None);
    CursorFoundPage([a, b, c], 2, "b", 1);
    CursorFoundPage([a, b, c], 2, "c", 2);
  }
}
