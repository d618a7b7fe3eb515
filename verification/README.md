# Sports Hub client core in Dafny

This project models the logic inside the Sports Hub web client (`src/App.jsx`). The client is a React page with these parts:

- a list of pickup games the user can search and mark as "joined";
- a feed of posts;
- a chat panel that follows the selected game's room, or the global room when no game is selected.

Under the markup, the client's logic is a few deterministic operations. This project models them:

- **String built-ins** (module `Text`, `text.dfy`): JavaScript's `trim`, `toLowerCase` and `includes`, written out over `string`.
- **Array built-ins** (module `Lists`, `lists.dfy`): `filter` with `!==`, written out. Also the relations used to state what these operations promise: an order-preserving subsequence and the absence of duplicates.
- **Records** (module `Records`, `records.dfy`): the author, chat message, game and post records. It also holds the builders behind `Chat.send`, `CreateGameModal.submit` and `CreatePostModal.submit`. Each builder returns `None` when the source's blank-input guard makes the handler return early.
- **Game list** (module `Games`, `games.dfy`): `handleJoinGame` (the joined-games toggle), the `filteredGames` search, and the room derived from the selected game.
- **Chat state** (module `Chat`, `chat.dfy`): the class `ChatSession` holds the selected game, the message list, the input box text and the log of socket events emitted.
  - Its methods are the `Chat` component's handlers (`load_messages`, `chat_message`, `send`, typing) and the selection change.
  - The selection change combines the `MainApp` room effect and the `Chat` room effect.
  - Its invariant says three things: the emitted `join_room`/`leave_room` requests, each join adding its room and each leave removing it, leave the connection in exactly the current room; every sent message went to the room held at that moment; and no blank or untrimmed text was ever sent.

The model uses these conventions:

- **Missing values.** A missing user field or game id (null or undefined) is the empty string, since both are falsy for `||`. A game's `_id` and a chat room are `Option<string>`, because the client really sends an undefined room on the wire when a selected game has no `_id`.
- **Inputs from outside.** Generated ids (`uuidv4()`), timestamps (`new Date().toISOString()`) and the signed-in user are parameters.
- **The socket.** What the client emits is modelled as an append-only log of `join_room`, `leave_room` and `chat_message` events.

Three behaviours of the code worth knowing:

- **Echoes are not deduplicated.** The client never deduplicates an echoed message by id. `OnChatMessage` appends every incoming message, whatever its room and whether or not its id is already listed.
- **Blank rooms are not rejected.** A blank or undefined room is not rejected before it reaches the wire. When the selected game has no `_id`, the `MainApp` effect still emits `join_room` for the undefined room. In that case the `Chat` effect does not clear the list, and `send` addresses messages to the undefined room.
- **Sending during a switch is allowed.** Sends are not blocked while a room switch is in flight. A message is always addressed to the room of the current selection.

The page itself only ever selects a game from the list (lines 256 and 543) and never clears the selection. `Select(None)` after a first selection, and switch paths that return to `"global_room"`, are transitions the page does not make. The model allows them, so its properties cover a superset of the page's behaviour.

## Model

| member | source | states |
|---|---|---|
| Text.Trim | src/App.jsx:530 | `trim` gives the infix of the input between its leading and trailing white space; the result is empty exactly when the input is all white space, and otherwise starts and ends with a non-space character |
| Text.TrimIdempotent | src/App.jsx:370 | trimming an already trimmed text changes nothing, so a sent text is stable under `trim` |
| Text.Lower | src/App.jsx:533-535 | `toLowerCase` (ASCII) keeps the length and gives a string equal to the input up to letter case, with no upper-case letter left; every character that was not an upper-case letter is unchanged (so each capital becomes the letter 32 code points above it) |
| Text.LowerIgnoresCase | src/App.jsx:530-535 | two strings that differ only in letter case lower-case to the same string |
| Text.TrimIgnoresCase | src/App.jsx:530 | trimming two strings that differ only in letter case gives strings that differ only in letter case |
| Text.LowerIdempotent | src/App.jsx:530 | lower-casing an already lower-cased string changes nothing |
| Text.IncludesIffOccurs | src/App.jsx:533-535 | `includes` holds exactly when the needle occurs at some position of the haystack (both directions) |
| Text.IncludesLower | src/App.jsx:530-535 | if a field contains a query, the lower-cased field contains the lower-cased query |
| Text.IncludesTrim | src/App.jsx:530 | a string contains its trimmed form |
| Lists.RemoveAll | src/App.jsx:520 | `filter(id => id !== gameId)` is an order-preserving selection of the list whose multiset is the old one with every occurrence of `gameId` removed |
| Lists.RemoveAllAppended | src/App.jsx:520-523 | filtering out the id just appended to a list that lacked it gives the list back |
| Lists.SubsequenceNoDuplicates | src/App.jsx:520 | a filtered list of distinct ids stays duplicate-free |
| Records.AuthorOf | src/App.jsx:366-369 | the author id is the user's id or `"anon"`; the name is the full name, else the user name, else the fallback (`"Guest"` for chat, `"Anonymous"` for posts); both are non-empty |
| Records.NewMessage | src/App.jsx:359-372 | no payload exactly when the input is blank; otherwise the payload's text is the trimmed input (non-empty, already trimmed, contained in the input), its room, id and time are the given ones and its author falls back to `"anon"`/`"Guest"` |
| Records.NewGame | src/App.jsx:79-89 | rejected exactly when the location or the sport is blank; the sport is stored trimmed and non-empty, the title is the untrimmed `sport + " at " + location`, an empty time becomes `"TBD"` and empty players `"Open"`; the record has no `_id` and no location |
| Records.NewPost | src/App.jsx:165-178 | rejected exactly when both title and caption are blank; title and caption are stored trimmed and not both empty; the image is null exactly when the URL is blank, else the trimmed URL; the author falls back to `"anon"`/`"Anonymous"` |
| Games.ToggleJoined | src/App.jsx:517-525 | toggling flips the id's membership and no other id's; leaving gives an order-preserving selection with every occurrence of the id removed; joining appends the id at the end |
| Games.ToggleTwice | src/App.jsx:517-525 | joining and then leaving a game, starting from a list without it, restores the list exactly |
| Games.TogglePreservesNoDuplicates | src/App.jsx:517-525 | a duplicate-free joined list stays duplicate-free under a toggle, so the list (empty at first) never lists a game twice |
| Games.ToggleFlipsButton | src/App.jsx:251-265 | clicking a game's Join/Leave button (keyed by `_id`, else `id`) flips that game's joined state and leaves every game with another key unchanged |
| Games.SearchKey | src/App.jsx:530-531 | the search key is empty exactly when the query is blank |
| Games.FilterGames | src/App.jsx:529-537 | the filtered list is an order-preserving subsequence of the games; a game is in it exactly when it is in the list and the query is blank or the key is a substring of the lower-cased title, sport or present location; a kept game appears as many times as in the input, a dropped one not at all |
| Games.SearchKeyIgnoresCase | src/App.jsx:530 | queries that differ only in letter case have the same search key |
| Games.FilterIgnoresCase | src/App.jsx:529-537 | the search is case-insensitive: queries that differ only in letter case keep exactly the same games, in the same order |
| Games.FilterBlankQuery | src/App.jsx:530-531 | a query that is blank after trimming returns every game, in order |
| Games.FilterIdempotent | src/App.jsx:529-537 | filtering the filtered list again with the same query changes nothing |
| Games.FoundThrough | src/App.jsx:530-535 | if a field contains the typed query, the lower-cased field contains its search key |
| Games.CreatedGameFound | src/App.jsx:85-86 | whenever location and sport are not blank, the create form builds a game, and a search for its location or for its sport as typed keeps that game |
| Games.RoomFor | src/App.jsx:469 | the chat room is the selected game's `_id` (possibly undefined), else `"global_room"`; the room is undefined exactly when a game without `_id` is selected |
| Chat.SwitchEvents | src/App.jsx:466-478 | a selection change emits `leave_room` for the old room first, then only `join_room` for the new room: twice when the chat's room effect also fires (lines 347-351), once otherwise |
| Chat.SentMessageIsOwn | src/App.jsx:396-401 | a message built by `send` is drawn as the sender's own (its author id is the user's id, else `"anon"`, as the renderer tests) |
| Chat.SwitchSettles | src/App.jsx:466-478 | if the emitted requests left the connection in exactly room A, then after the switch events from A to B they leave it in exactly room B |
| Chat.RapidSwitchesSettle | src/App.jsx:466-478 | after any sequence of successive switches, the emitted requests leave the connection in exactly the last room selected |
| Chat.ChatSession.constructor | src/App.jsx:457-461 | a connected client with no selection is in `"global_room"`, has joined it, and has an empty list and input |
| Chat.ChatSession.Select | src/App.jsx:466-478 | a new selection emits the switch events from the old room to the derived room (`_id` or `"global_room"`); when the room changed to a truthy value, the list is cleared and `join_room` is also emitted (as at lines 347-351); reselecting the same game does nothing; the invariant is kept |
| Chat.ChatSession.Type | src/App.jsx:425 | typing replaces the input text and nothing else |
| Chat.ChatSession.OnLoadMessages | src/App.jsx:335 | `load_messages` replaces the list with the given history |
| Chat.ChatSession.OnChatMessage | src/App.jsx:334 | `chat_message` appends exactly one entry at the end, with no deduplication |
| Chat.ChatSession.Send | src/App.jsx:359-377 | blank input emits nothing and changes nothing; otherwise exactly one `chat_message` is emitted, carrying the current room and the trimmed text, the same payload is appended to the list, and the input is cleared |

## Left out

- Socket connection lifecycle (`io(...)`, the connect log line at line 460, `disconnect` on unmount), and the `console.log` lines of the room effect for each join and leave (lines 472 and 476); the registration and removal of the socket listeners. These are network I/O and framework plumbing. The socket is only the log of emitted events.
- Chat.ChatSession.constructor: the code emits `join_room("global_room")` three times at start-up (once from the connect effect, and once each from the two room effects when the socket is first set). The model records it once, because the repetition is a product of React effect scheduling.
- Ordering of effects: the model assumes React runs an effect's cleanup (`leave_room`) before the new effects of the same commit. React StrictMode's double invocation of effects is not modelled.
- Chat.ChatSession.Select: the model compares selections by value, while React compares the selected game object by identity.
- The `axios` fetches and creates (`fetchData`, `handleCreatePost`, `handleCreateGame`) are network I/O. On success they prepend the server's record to the list, and the post creation also emits `new_post`. The server's record is not something the model can build, so these are not modelled; the builders stop at the record handed to `onCreate`.
- Form field state: the modals' inputs, their reset after submit or close, and the open and close flags. The builders take the field values as parameters.
- `toLowerCase` is modelled only for ASCII letters; other Unicode case mappings are not modelled.
- `trim` works on Unicode code points; JavaScript's UTF-16 code units are not modelled.
- `uuidv4()`, `new Date().toISOString()` and the identity provider's user are foreign calls, so they are parameters.
- Rendering: JSX, auto-scroll, the chat title, Header, PostCard, CenterFeed and the LeftPanel markup. The "own message" test and the Join/Leave button state are kept, because lemmas mention them.
- The sample data functions, which nothing calls.
- The room registry, the bounded history buffer, broadcast fan-out, reconnection and echo deduplication are not part of this code (they would live on the server), so they are not modelled.
- `src/main.jsx`, `src/SignInPage.jsx` and `src/SignUpPage.jsx` only mount React and render sign-in widgets, so they are not modelled.
- Two paths where the code throws are not modelled. A game whose `title` or `sport` is null or undefined makes `toLowerCase` throw in the search filter (lines 533-534); the `Game` record always holds strings there. `send` calls `socket.emit` (line 374) before the connect effect has set the socket (line 459), which throws; `ChatSession` always has a connected socket.
- Which rooms a connection is in: the model counts each emitted `join_room` as adding its room and each `leave_room` as removing it. That is the server's handling of these requests, and the server is not part of this code; the invariant and the switch lemmas hold under that assumption.
