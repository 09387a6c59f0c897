# GetAllChats: merge and cursor pagination

This project models the in-memory core of the `GetAllChats` Lambda handler. The handler lists the chats a user takes part in. Two secondary-index queries run first: one for chats where the user is `user1`, one for chats where the user is `user2`. The handler appends the second result to the first and orders the combined list by `UpdateDt` with a stable sort. Then it resolves and range-checks the `pageSize` query parameter and copies every chat into a response item. It returns one page together with a `PaginationToken`. A `lastid` that is absent or empty means no cursor, and the page is then the first `pageSize` items, or all of them when there are fewer. With a cursor the page is the up to `pageSize` items that follow the first item carrying that chat id: fewer near the end of the list, and none when no item carries it.

Modules; `Wrappers` is a helper module, the other four follow the parts of `GetAllChats/Function.cs`:

- `Wrappers` (wrappers.dfy): `Option`. It stands for a null reference, a missing parameter or a failed parse.
- `ChatModel` (chat_model.dfy): the `Chat` record, the `ResponseItem` it is copied into, the projection, and the "distinct, non-empty chat ids" condition.
- `Merge` (merge.dfy): `ChatList`, a mutable list that models `List<Chat>.AddRange`. It also holds the stable sort `OrderByUpdateDt` (insertion in input order) and `GetAllChats`, with its lemmas.
- `Pagination` (pagination.dfy): LINQ `Take`, `Skip` and `SkipWhile`, the page cut `Paginate`, and the lemmas about slices and chained cursors.
- `Handler` (handler.dfy): the `pageSize` default and range check, the projection loop, and `FunctionHandler` itself.

Inputs the model takes as parameters instead of I/O:

- The two DynamoDB query results are two `seq<Chat>`.
- The result of `int.TryParse` on the `pageSize` parameter is an `Option<Int32>`. `None` means missing or unparsable, and C#'s out value is then 0.
- The `lastid` parameter is an `Option<string>`. `None` stands for the null that `TryGetValue` leaves when the parameter is absent.
- `UpdateDt` is an integer sort key.

The response is either `Message("Invalid pageSize.")` or `Page(paginationToken, chats)`.

Points of the code's behaviour that the model keeps:

- Tie order. LINQ `OrderBy` is stable, so among equal `UpdateDt` values the `user1`-index records come first, in the order the index returned them, and then the `user2`-index records. The model's sort is stable in the same way.
- Explicit zero. Not only a missing or unparsable `pageSize` becomes 50: an explicit `0` does too (`pageSize == 0 ? 50 : pageSize`).
- Out-of-range numbers. A string whose number does not fit into a C# `int` fails `int.TryParse`, so it also becomes 50, not a validation error. This is why the parse result is an `Int32`.
- Token. The `PaginationToken` echoes the request's `lastid`; it is not the last item's id. The chaining lemmas (`Follow`) describe a client that sends the last item's id as the next cursor itself. Sending the echoed token back would fetch the same page again.

## Model

| member | source | states |
|---|---|---|
| `ChatModel.Project` | GetAllChats/Function.cs:58-71 | the projected list has the chats' length and order; item i has chat i's ChatId, UpdateDt, User1 and User2 |
| `ChatModel.ToItem` | GetAllChats/Function.cs:61-67 | the response item carries the chat's ChatId, UpdateDt, User1 and User2 unchanged |
| `ChatModel.ProjectKeepsDistinctIds` | GetAllChats/Function.cs:61-67 | distinct, non-empty chat ids stay distinct and non-empty after the projection |
| `Merge.ChatList.AddRange` | GetAllChats/Function.cs:123 | appending keeps the list's own records first, then `other`'s, with no deduplication |
| `Merge.Insert` | GetAllChats/Function.cs:124 | one stable insertion step adds exactly one record (length + 1, multiset + {x}) |
| `Merge.OrderByUpdateDt` | GetAllChats/Function.cs:124 | the sort keeps the length and is a permutation (multiset-equal) of its input |
| `Merge.InsertSorted` | GetAllChats/Function.cs:124 | inserting one record into a sorted list keeps it sorted by UpdateDt |
| `Merge.InsertKeyFilter` | GetAllChats/Function.cs:124 | an insertion puts the record after every record of equal UpdateDt (stability of one step) |
| `Merge.OrderByIsSorted` | GetAllChats/Function.cs:124 | the ordered list is non-decreasing by UpdateDt |
| `Merge.OrderByIsStable` | GetAllChats/Function.cs:124 | for every key, the records with that UpdateDt appear in the same order as in the input (OrderBy is stable) |
| `Merge.KeyFilterConcat` | GetAllChats/Function.cs:123 | the equal-key records of an appended list are those of the first part followed by those of the second |
| `Merge.StableSortUnique` | GetAllChats/Function.cs:124 | two lists that are both sorted by UpdateDt and agree on the order of each key's records are equal, so OrderByUpdateDt is the only stable sort |
| `Merge.OrderByKeepsDistinctIds` | GetAllChats/Function.cs:124 | sorting neither duplicates nor loses a chat id |
| `Merge.GetAllChats` | GetAllChats/Function.cs:123-124 | the merged list has length \|user1\| + \|user2\|, is multiset-equal to both inputs together, is sorted by UpdateDt, and within each UpdateDt lists the user1 records before the user2 records, each group in its own order |
| `Pagination.IsNullOrEmpty` | GetAllChats/Function.cs:76 | a cursor counts as absent exactly when it is null or the empty string |
| `Pagination.Take` | GetAllChats/Function.cs:77 | Take(n) is the prefix of length min(n, \|s\|), empty for n <= 0 |
| `Pagination.Skip` | GetAllChats/Function.cs:78 | Skip(n) is the suffix after the first min(n, \|s\|) elements, the whole list for n <= 0 |
| `Pagination.SkipWhileNotId` | GetAllChats/Function.cs:78 | SkipWhile(ChatId != id) never lengthens the list, and what it leaves, if anything, begins with an item carrying the id |
| `Pagination.SkipWhileNotIdSuffix` | GetAllChats/Function.cs:78 | SkipWhile(ChatId != id) leaves a suffix that begins with an item carrying the id, or is empty; every dropped item has another id |
| `Pagination.IndexOfIdFirst` | GetAllChats/Function.cs:78 | the cursor search finds the first item carrying the id, and finds nothing only when no item carries it |
| `Pagination.SkipWhileAtIndex` | GetAllChats/Function.cs:78 | SkipWhile stops exactly at the index the cursor search finds, and consumes everything when it finds none |
| `Pagination.PageAfterMatch` | GetAllChats/Function.cs:78 | Skip(1) then Take(pageSize) after the matched item is the slice of up to pageSize items right after it |
| `Pagination.Paginate` | GetAllChats/Function.cs:76-78 | the page never holds more than pageSize items |
| `Pagination.PaginateIsSlice` | GetAllChats/Function.cs:76-78 | the page is exactly items[k..min(k + pageSize, n)], where k is 0 without a cursor, one past the first match with one, and n when nothing matches |
| `Pagination.NoCursorFirstPage` | GetAllChats/Function.cs:76-77 | with a null or empty lastid the page is the first min(pageSize, n) items |
| `Pagination.CursorFoundPage` | GetAllChats/Function.cs:78 | with a cursor first matched at i, the page is items[i+1 .. min(i+1+pageSize, n)] |
| `Pagination.CursorMissEmptyPage` | GetAllChats/Function.cs:78 | a cursor that no item carries gives an empty page |
| `Pagination.IndexOfDistinct` | GetAllChats/Function.cs:78 | with distinct ids, searching for an item's own id finds that item |
| `Pagination.DistinctIdsResolve` | GetAllChats/Function.cs:76-78 | with distinct, non-empty ids, every item's id is a cursor that is not treated as absent and that leads back to that item |
| `Pagination.NextCursorContinues` | GetAllChats/Function.cs:78 | when every id leads back to its item, the last item's id used as the next cursor starts the next page exactly where the current one ended |
| `Pagination.PageSpansToNextCursor` | GetAllChats/Function.cs:76-78 | when every id leads back to its item, a non-empty page is exactly the slice from its own start to the strictly later start that its last item's id gives |
| `Pagination.FollowStep` | GetAllChats/Function.cs:76-78 | one round of a client following cursors returns the slice from this request's start to the strictly later start of the next request |
| `Pagination.FollowFrom` | GetAllChats/Function.cs:76-78 | following last-item cursors from any request, with one request per remaining item, yields every later item once, in order |
| `Pagination.FollowEnumeratesAll` | GetAllChats/Function.cs:76-78 | starting without a cursor, at most one request per item collects the whole list: no gaps, no repeats |
| `Pagination.ThreeChatWalkthrough` | GetAllChats/Function.cs:76-78 | for ids a, b, c and a page size of 2, the pages are [a, b], then [c] for cursor "b", then [] for cursor "c" |
| `Handler.ResolvePageSize` | GetAllChats/Function.cs:38-40 | a missing, unparsable or zero pageSize becomes 50; any other parsed value is kept |
| `Handler.PageSizeAccepted` | GetAllChats/Function.cs:42 | the range check passes exactly for page sizes from 1 through 1000 |
| `Handler.AcceptedPageSizes` | GetAllChats/Function.cs:38-42 | the range check passes exactly when pageSize is missing, unparsable, or parses to 0 through 1000 |
| `Handler.ProjectChats` | GetAllChats/Function.cs:58-71 | the loop's result is the projection of the merged chats, item by item, in order |
| `Handler.FunctionHandler` | GetAllChats/Function.cs:26-96 | the response is the "Invalid pageSize." body exactly when the resolved page size is outside 1..1000. When it is inside, the response is a page: its chats are the Paginate slice of the projected merge, at most pageSize long, and its token is the request's lastid |
| `Handler.ClientCursorsEnumerateAllChats` | GetAllChats/Function.cs:73-94 | if chat ids are distinct and non-empty across both index results, a client that sends the last received id as the next cursor collects every merged chat exactly once, in time order |

## Left out

- The DynamoDB queries (`QueryOperationConfig`, index names, key expressions, `FromQueryAsync`, `GetRemainingAsync`) are foreign SDK calls. Their results are the two input sequences.
- `async`/`await`, and the construction of the DynamoDB client and context, are I/O and process setup.
- The status code and the `Content-Type` and `Access-Control-Allow-Origin` headers are transport framing. The response is always status OK; the model keeps only the body-versus-page distinction.
- `JsonSerializer.Serialize` is a library encoder. A `Page` value stands for the serialized object with `PaginationToken` and `Chats`.
- The string grammar of `int.TryParse` is not modelled: its result is an input of type `Option<Int32>`.
- The `userId` lookup in `QueryStringParameters` throws when the key is missing. That is framework behaviour, and the user id only feeds the queries, which are left out.
- The concrete type of `UpdateDt` is defined in models that are not part of this model. It is an integer sort key.
- The initial capacity given to the result list (`new List<…>(chats.Count)`) has no observable effect and is not modelled.
- `Handler.ClientCursorsEnumerateAllChats`: it requires distinct, non-empty chat ids. An empty id sent as the cursor counts as "no cursor" (`string.IsNullOrEmpty`) and restarts from the first page. A repeated id makes the cursor jump back to its first occurrence.
