/**
 * The request handler: resolve and check `pageSize`, project the merged chats
 * into response items, cut the page, and echo the request's `lastid` as the
 * response's `PaginationToken`.
 */
module Handler {
  import opened Wrappers
  import opened ChatModel
  import opened Merge
  import opened Pagination

  /** A C# `int`. `int.TryParse` only ever yields values of this range. */
  type Int32 = x: int | -0x8000_0000 <= x < 0x8000_0000

  const DefaultPageSize: Int32 := 50
  const MaxPageSize: Int32 := 1000
  const InvalidPageSizeBody: string := "Invalid pageSize."

  /** The response body: the fixed text for a bad page size, or a page with its token. */
  datatype Response =
    | Message(body: string)
    | Page(paginationToken: Option<string>, chats: seq<ResponseItem>)

  /**
   * The `pageSize` in force. `parsed` is what `int.TryParse` made of the query
   * parameter: `None` when it was missing or did not parse, in which case the
   * out value is 0; a 0 is then replaced by the default.
   */
  function ResolvePageSize(parsed: Option<Int32>): (n: Int32)
    ensures parsed.None? ==> n == DefaultPageSize
    ensures parsed == Some(0) ==> n == DefaultPageSize
    ensures parsed.Some? && parsed.value != 0 ==> n == parsed.value
  {
    var raw: Int32 := if parsed.Some? then parsed.value else 0;
    if raw == 0 then DefaultPageSize else raw
  }

  /** The range check: a page size is accepted unless it is above 1000 or below 1. */
  predicate PageSizeAccepted(n: int)
    ensures PageSizeAccepted(n) <==> 1 <= n <= MaxPageSize
  {
    !(n > MaxPageSize || n < 1)
  }

  /**
   * Which requests pass the range check: exactly those whose `pageSize` is
   * missing, unparsable, or parsed to a value from 0 through 1000.
   */
  lemma AcceptedPageSizes(parsed: Option<Int32>)
    ensures PageSizeAccepted(ResolvePageSize(parsed)) <==>
            parsed.None? || 0 <= parsed.value <= MaxPageSize
  {
  }

  /** The `foreach` loop that copies every chat into a response item, in order. */
  method ProjectChats(chats: seq<Chat>) returns (result: seq<ResponseItem>)
    ensures IsProjection(chats, result)
    ensures result == Project(chats)
  {
    result := [];
    var i := 0;
    while i < |chats|
      invariant 0 <= i <= |chats|
      invariant result == Project(chats[..i])
    {
      assert chats[..i + 1][..i] == chats[..i];
      result := result + [ToItem(chats[i])];
      i := i + 1;
    }
    assert chats[..|chats|] == chats;
  }

  /**
   * `FunctionHandler`, given the two index results, what `int.TryParse` made of
   * `pageSize`, and the `lastid` parameter (`None` when absent).
   */
  method FunctionHandler(user1Results: seq<Chat>, user2Results: seq<Chat>,
                         pageSizeParsed: Option<Int32>, lastId: Option<string>)
    returns (response: Response)
    ensures !PageSizeAccepted(ResolvePageSize(pageSizeParsed)) <==> response == Message(InvalidPageSizeBody)
    ensures PageSizeAccepted(ResolvePageSize(pageSizeParsed)) ==> response.Page?
    ensures PageSizeAccepted(ResolvePageSize(pageSizeParsed)) ==> response.paginationToken == lastId
    ensures PageSizeAccepted(ResolvePageSize(pageSizeParsed)) ==>
            response.chats == Paginate(Project(OrderByUpdateDt(user1Results + user2Results)),
                                       ResolvePageSize(pageSizeParsed), lastId)
    ensures PageSizeAccepted(ResolvePageSize(pageSizeParsed)) ==>
            |response.chats| <= ResolvePageSize(pageSizeParsed)
  {
    var chats := GetAllChats(user1Results, user2Results);
    var pageSize := ResolvePageSize(pageSizeParsed);
    if pageSize > MaxPageSize || pageSize < 1 {
      return Message(InvalidPageSizeBody);
    }
    var result := ProjectChats(chats);
    var paginatedResults := Paginate(result, pageSize, lastId);
    response := Page(lastId, paginatedResults);
  }

  /**
   * A client that sends, as the next `lastid`, the chat id of the last item it
   * received collects every merged chat exactly once, in time order, within one
   * request per chat, provided chat ids are distinct and non-empty across both
   * index results.
   */
  lemma ClientCursorsEnumerateAllChats(user1Results: seq<Chat>, user2Results: seq<Chat>, pageSize: int)
    requires 1 <= pageSize
    requires DistinctChatIds(user1Results + user2Results)
    ensures var items := Project(OrderByUpdateDt(user1Results + user2Results));
            Follow(items, pageSize, None, |items|) == items
  {
    OrderByKeepsDistinctIds(user1Results + user2Results);
    ProjectKeepsDistinctIds(OrderByUpdateDt(user1Results + user2Results));
    FollowEnumeratesAll(Project(OrderByUpdateDt(user1Results + user2Results)), pageSize);
  }
}
