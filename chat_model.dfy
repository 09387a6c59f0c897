/**
 * The records the handler reads and the items it returns.
 * A `Chat` is what the store's two indexes yield; a `ResponseItem` is the
 * structural copy placed in the response body.
 */
module ChatModel {

  /** A chat record. `updateDt` is the index's sort key, modelled as an integer. */
  datatype Chat = Chat(chatId: string, updateDt: int, user1: string, user2: string)

  /** One entry of the response's `Chats` array. */
  datatype ResponseItem = ResponseItem(chatId: string, updateDt: int, user1: string, user2: string)

  /** The field-by-field copy of one chat into a response item. */
  function ToItem(c: Chat): (r: ResponseItem)
    ensures r.chatId == c.chatId && r.updateDt == c.updateDt
    ensures r.user1 == c.user1 && r.user2 == c.user2
  {
    ResponseItem(c.chatId, c.updateDt, c.user1, c.user2)
  }

  /** Item i carries exactly the four fields of chat i. */
  ghost predicate IsProjection(chats: seq<Chat>, items: seq<ResponseItem>)
  {
    |items| == |chats| &&
    forall i :: 0 <= i < |chats| ==>
      items[i].chatId == chats[i].chatId && items[i].updateDt == chats[i].updateDt &&
      items[i].user1 == chats[i].user1 && items[i].user2 == chats[i].user2
  }

  /** The projection of a whole list, in order, as the handler's loop builds it. */
  function Project(chats: seq<Chat>): (items: seq<ResponseItem>)
    ensures IsProjection(chats, items)
  {
    if chats == [] then []
    else Project(chats[..|chats| - 1]) + [ToItem(chats[|chats| - 1])]
  }

  /** No two items share a chat id, and no chat id is the empty string. */
  ghost predicate DistinctIds(items: seq<ResponseItem>)
  {
    (forall i :: 0 <= i < |items| ==> items[i].chatId != "") &&
    (forall i, j :: 0 <= i < j < |items| ==> items[i].chatId != items[j].chatId)
  }

  /** The same condition on chat records. */
  ghost predicate DistinctChatIds(chats: seq<Chat>)
  {
    (forall i :: 0 <= i < |chats| ==> chats[i].chatId != "") &&
    (forall i, j :: 0 <= i < j < |chats| ==> chats[i].chatId != chats[j].chatId)
  }

  /** Distinct, non-empty chat ids survive the projection. */
  lemma ProjectKeepsDistinctIds(chats: seq<Chat>)
    requires DistinctChatIds(chats)
    ensures DistinctIds(Project(chats))
  {
  }
}
