/**
 What a platform message is to this service: routed by topic and type, then read field by field in the
 order the projectors read them.
 */
module ProfileEvents {
  import opened Envelope

  datatype Topic = UserEvents | GameEvents | TradeEvents | CommunityEvents

  /** What the consumer of a topic subscribes to. */
  function TopicName(topic: Topic): string {
    match topic
    case UserEvents => "user-events"
    case GameEvents => "game-events"
    case TradeEvents => "trade-events"
    case CommunityEvents => "community-events"
  }

  /** What the consumer of a topic gets to see of everything that is published. */
  function Received(log: seq<Message>, topic: Topic): seq<Message> {
    if log == [] then []
    else
      var m := log[|log| - 1];
      Received(log[..|log| - 1], topic) + if m.topic == TopicName(topic) then [m] else []
  }

  lemma {:induction false} AllIsReceived(log: seq<Message>, topic: Topic)
    requires forall m :: m in log ==> m.topic == TopicName(topic)
    ensures Received(log, topic) == log
  {
    if log != [] {
      var init, m := log[..|log| - 1], log[|log| - 1];
      assert log == init + [m];
      AllIsReceived(init, topic);
    }
  }

  /** What handling a message does to the read model. */
  datatype Projection =
    | CreateProfile(user: string, displayName: string)
    | Grant(owner: string, game: string)
    | Revoke(owner: string, game: string)
    | GiveItem(user: string, displayName: string, item: string, game: string)
    | ShelvePost(user: string, displayName: string, post: string, score: int)
    /** The profile row is committed, and then a field turns out to be missing. */
    | ProfileOnly(user: string, displayName: string)
    /** An event of somebody else's on a shared topic. */
    | Ignore
    /** Raised before any row is touched. */
    | Refuse

  const USER_REGISTERED := "arcadia.auth.v1.UserRegistered"
  const OWNERSHIP_GRANTED := "arcadia.catalog.v1.OwnershipGranted"
  const OWNERSHIP_REVOKED := "arcadia.catalog.v1.OwnershipRevoked"
  const ITEM_GRANTED := "arcadia.marketplace.v1.ItemGranted"
  const TRADE_MATCHED := "arcadia.marketplace.v1.TradeMatched"
  const POST_REACTED := "arcadia.community.v1.PostReacted"

  type Payload = map<string, Json>

  /** A value the column takes. */
  predicate HasText(p: Payload, key: string) {
    key in p && p[key].Text?
  }

  /** `event.get("display_name", "")` */
  function DisplayName(p: Payload): Json {
    if "display_name" in p then p["display_name"] else Text("")
  }

  /** `_owner_of` */
  function OwnerOf(show: Json -> string, p: Payload): string {
    if Truthy(Get(p, "owner_id")) then show(Get(p, "owner_id")) else TextOrEmpty(show, p, "user_id")
  }

  function ReadUser(p: Payload): Projection {
    if HasText(p, "user_id") && DisplayName(p).Text? then CreateProfile(p["user_id"].s, DisplayName(p).s) else Refuse
  }

  function ReadOwnership(show: Json -> string, p: Payload, granted: bool): Projection {
    var owner, game := OwnerOf(show, p), TextOrEmpty(show, p, "game_id");
    if owner == "" || game == "" then Refuse
    else if granted then Grant(owner, game) else Revoke(owner, game)
  }

  /** The profile first, the item's own fields afterwards. */
  function ReadItem(p: Payload): Projection {
    if !HasText(p, "user_id") || !DisplayName(p).Text? then Refuse
    else if HasText(p, "item_id") && HasText(p, "game_id") then
      GiveItem(p["user_id"].s, DisplayName(p).s, p["item_id"].s, p["game_id"].s)
    else ProfileOnly(p["user_id"].s, DisplayName(p).s)
  }

  /** The shelf is the author's; who reacted is not read. */
  function ReadPost(p: Payload): Projection {
    if !HasText(p, "author_id") || !DisplayName(p).Text? then Refuse
    else if HasText(p, "post_id") && "feedback_score" in p && p["feedback_score"].Number? then
      ShelvePost(p["author_id"].s, DisplayName(p).s, p["post_id"].s, p["feedback_score"].n)
    else ProfileOnly(p["author_id"].s, DisplayName(p).s)
  }

  /** `_dispatch` with the route table of each topic. */
  function Route(show: Json -> string, topic: Topic, message: Json): Projection {
    match Parse(show, message)
    case MalformedEnvelope => Refuse
    case Ok(e) =>
      match topic
      case UserEvents => if e.eventType == USER_REGISTERED then ReadUser(e.payload) else Ignore
      case GameEvents =>
        if e.eventType == OWNERSHIP_GRANTED then ReadOwnership(show, e.payload, true)
        else if e.eventType == OWNERSHIP_REVOKED then ReadOwnership(show, e.payload, false)
        else Ignore
      case TradeEvents =>
        if e.eventType == ITEM_GRANTED || e.eventType == TRADE_MATCHED then ReadItem(e.payload) else Ignore
      case CommunityEvents => if e.eventType == POST_REACTED then ReadPost(e.payload) else Ignore
  }

  /** For a gift the buyer's id is in the message too, and it never becomes the owner. */
  lemma GiftsGoToTheOwner(show: Json -> string, row: OutboxRow, owner: string, buyer: string, game: string)
    requires RendersText(show) && row.id != "" && row.eventType == OWNERSHIP_GRANTED
    requires row.payload == Object(map["owner_id" := Text(owner), "user_id" := Text(buyer), "game_id" := Text(game)])
    requires owner != "" && game != ""
    ensures Route(show, GameEvents, EnvelopeFor(row)) == Grant(owner, game)
  {
    RoundTrip(show, row);
    var p := row.payload.fields;
    assert Get(p, "owner_id") == Text(owner) && Get(p, "game_id") == Text(game);
  }
}
