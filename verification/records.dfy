/**
 * The records the client builds from form input: the chat payload of
 * `Chat.send`, the game of `CreateGameModal.submit` and the post of
 * `CreatePostModal.submit`. Generated ids and timestamps are parameters.
 */
module Records {
  import opened Text

  datatype Option<T> = None | Some(value: T)

  const ANON_ID := "anon"
  const GUEST_NAME := "Guest"
  const ANONYMOUS_NAME := "Anonymous"
  const NO_TIME := "TBD"
  const NO_PLAYERS := "Open"

  /**
   * The signed-in user as the identity provider supplies it. A field that is
   * missing (null or undefined) is the empty string: both are falsy for `||`.
   */
  datatype User = User(id: string, fullName: string, username: string)

  datatype Author = Author(id: string, name: string)

  /** A chat message; `room` is None when the room the client used was undefined. */
  datatype Message = Message(id: string, room: Option<string>, author: Author, text: string, createdAt: string)

  /**
   * A game. `dbId` is the server-assigned `_id` (absent on a game built by
   * the form), `id` the client-generated one ("" when absent), `location`
   * present only on records that carry one.
   */
  datatype Game = Game(
    id: string, dbId: Option<string>, title: string, sport: string,
    location: Option<string>, time: string, players: string)

  /** A feed post; `image` is None for `null`. */
  datatype Post = Post(
    id: string, title: string, caption: string, image: Option<string>,
    createdAt: string, author: Author)

  /** JavaScript's `a || b` on strings: `a` unless it is empty. */
  function OrElse(a: string, b: string): string {
    if a != "" then a else b
  }

  /** `user?.id`, with undefined as "". */
  function UserId(user: Option<User>): string {
    if user.Some? then user.value.id else ""
  }

  /**
   * `{ id: user?.id || "anon", name: user?.fullName || user?.username || fallbackName }`.
   * The author always has an id, and a name whenever the fallback is one; the
   * user's own values are used when present, in the order id, full name, user name.
   */
  function AuthorOf(user: Option<User>, fallbackName: string): (a: Author)
    ensures a.id != ""
    ensures fallbackName != "" ==> a.name != ""
    ensures a.id == (if UserId(user) != "" then UserId(user) else ANON_ID)
    ensures user.None? ==> a.name == fallbackName
    ensures user.Some? ==>
      a.name == (if user.value.fullName != "" then user.value.fullName
                 else if user.value.username != "" then user.value.username
                 else fallbackName)
  {
    var id := OrElse(UserId(user), ANON_ID);
    match user
    case None => Author(id, fallbackName)
    case Some(u) => Author(id, OrElse(OrElse(u.fullName, u.username), fallbackName))
  }

  /**
   * The payload `send` builds from the input box, or None when the input is
   * blank and nothing is sent. The text is the input with its surrounding
   * white space removed, so it is never empty and is already trimmed.
   */
  function NewMessage(id: string, createdAt: string, room: Option<string>, text: string, user: Option<User>): (m: Option<Message>)
    ensures m.None? <==> AllSpace(text)
    ensures m.Some? ==> m.value.text != "" && Trim(m.value.text) == m.value.text
    ensures m.Some? ==> m.value.text == Trim(text) && Includes(text, m.value.text)
    ensures m.Some? ==>
      && m.value.id == id && m.value.room == room && m.value.createdAt == createdAt
      && m.value.author == AuthorOf(user, GUEST_NAME)
  {
    var body := Trim(text);
    TrimIdempotent(text);
    IncludesTrim(text);
    if body == "" then None
    else Some(Message(id, room, AuthorOf(user, GUEST_NAME), body, createdAt))
  }

  /**
   * The game `CreateGameModal.submit` builds, or None when the trimmed
   * location or the trimmed sport is empty. The sport is stored trimmed, the
   * title joins the untrimmed sport and location, and an empty time or
   * player count is replaced by its placeholder.
   */
  function NewGame(id: string, location: string, sport: string, time: string, players: string): (g: Option<Game>)
    ensures g.None? <==> AllSpace(location) || AllSpace(sport)
    ensures g.Some? ==> g.value.sport != "" && Trim(g.value.sport) == g.value.sport && g.value.sport == Trim(sport)
    ensures g.Some? ==> g.value.title == sport + " at " + location
    ensures g.Some? ==> g.value.time == (if time == "" then NO_TIME else time)
    ensures g.Some? ==> g.value.players == (if players == "" then NO_PLAYERS else players)
    ensures g.Some? ==> g.value.id == id && g.value.dbId.None? && g.value.location.None?
  {
    TrimIdempotent(sport);
    if Trim(location) == "" || Trim(sport) == "" then None
    else Some(Game(id, None, sport + " at " + location, Trim(sport), None,
                   OrElse(time, NO_TIME), OrElse(players, NO_PLAYERS)))
  }

  /**
   * The post `CreatePostModal.submit` builds, or None when both the trimmed
   * title and the trimmed caption are empty. Title and caption are stored
   * trimmed, a blank image URL becomes null, the author falls back to
   * "anon" / "Anonymous".
   */
  function NewPost(id: string, createdAt: string, title: string, caption: string, imageUrl: string, user: Option<User>): (p: Option<Post>)
    ensures p.None? <==> AllSpace(title) && AllSpace(caption)
    ensures p.Some? ==> p.value.title != "" || p.value.caption != ""
    ensures p.Some? ==> p.value.title == Trim(title) && p.value.caption == Trim(caption)
    ensures p.Some? ==> IsTrimmed(p.value.title) && IsTrimmed(p.value.caption)
    ensures p.Some? ==> (p.value.image.None? <==> AllSpace(imageUrl))
    ensures p.Some? && p.value.image.Some? ==> p.value.image.value == Trim(imageUrl) && p.value.image.value != ""
    ensures p.Some? ==> p.value.id == id && p.value.createdAt == createdAt && p.value.author == AuthorOf(user, ANONYMOUS_NAME)
  {
    TrimIsTrimmed(title);
    TrimIsTrimmed(caption);
    if Trim(title) == "" && Trim(caption) == "" then None
    else
      var image := if Trim(imageUrl) == "" then None else Some(Trim(imageUrl));
      Some(Post(id, Trim(title), Trim(caption), image, createdAt, AuthorOf(user, ANONYMOUS_NAME)))
  }
}
