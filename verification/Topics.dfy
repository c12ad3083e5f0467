/**
 The read model over all four topics. Each topic has one consumer that handles its messages in order;
 how the topics interleave is up to the platform, and visitors hide games in between.
 */
module Topics {
  import opened Library
  import opened ProfileEvents
  import Envelope
  import Shelf

  datatype Item = Item(user: string, item: string, game: string)

  /** A handled message, or a visitor's request. */
  datatype Event =
    | Handled(topic: Topic, projection: Projection)
    | Hide(pair: Pair, hidden: bool)

  /** What a topic's messages can project to. */
  predicate Proper(e: Event) {
    match e
    case Hide(_, _) => true
    case Handled(topic, p) =>
      && (p.Grant? || p.Revoke? ==> topic == GameEvents && p.owner != "" && p.game != "")
      && (p.GiveItem? ==> topic == TradeEvents)
      && (p.ShelvePost? ==> topic == CommunityEvents)
  }

  /** Whatever is on a topic, its consumer touches its own part of the read model and the profiles. */
  lemma RoutedIsProper(show: Envelope.Json -> string, topic: Topic, message: Envelope.Json)
    ensures Proper(Handled(topic, Route(show, topic, message)))
  {}

  /** What the tables amount to. The rows of `top_posts` are an index over an author's reactions: which
      five of them they show is settled by the reactions, up to ties. */
  datatype Tables = Tables(
    names: map<string, string>,
    library: Shelfmark,
    reactions: map<string, seq<Shelf.Entry>>,
    items: multiset<Item>)

  /** `create_if_missing` */
  function Ensure(names: map<string, string>, user: string, name: string): map<string, string> {
    if user in names then names else names[user := name]
  }

  /** Every score an author's posts were given, in order. */
  function ReactionsTo(reactions: map<string, seq<Shelf.Entry>>, user: string): seq<Shelf.Entry> {
    if user in reactions then reactions[user] else []
  }

  function NamesOf(names: map<string, string>, p: Projection): map<string, string> {
    match p
    case CreateProfile(user, name) => Ensure(names, user, name)
    case Grant(owner, _) => Ensure(names, owner, "")
    case GiveItem(user, name, _, _) => Ensure(names, user, name)
    case ShelvePost(user, name, _, _) => Ensure(names, user, name)
    case ProfileOnly(user, name) => Ensure(names, user, name)
    case _ => names
  }

  function LibraryOf(library: Shelfmark, p: Projection): Shelfmark {
    match p
    case Grant(owner, game) => Granted(library, Pair(owner, game))
    case Revoke(owner, game) => Revoked(library, Pair(owner, game))
    case _ => library
  }

  function ReactionsOf(reactions: map<string, seq<Shelf.Entry>>, p: Projection): map<string, seq<Shelf.Entry>> {
    match p
    case ShelvePost(user, _, post, score) => reactions[user := ReactionsTo(reactions, user) + [Shelf.Entry(post, score)]]
    case _ => reactions
  }

  function ItemsOf(items: multiset<Item>, p: Projection): multiset<Item> {
    match p
    case GiveItem(user, _, item, game) => items + multiset{Item(user, item, game)}
    case _ => items
  }

  function Project(t: Tables, p: Projection): Tables {
    Tables(NamesOf(t.names, p), LibraryOf(t.library, p), ReactionsOf(t.reactions, p), ItemsOf(t.items, p))
  }

  function Apply(t: Tables, e: Event): Tables {
    match e
    case Handled(_, p) => Project(t, p)
    case Hide(pair, hidden) => t.(library := Hid(t.library, pair, hidden))
  }

  const EMPTY := Tables(map[], map[], map[], multiset{})

  function After(events: seq<Event>): Tables {
    if events == [] then EMPTY else Apply(After(events[..|events| - 1]), events[|events| - 1])
  }

  /** One topic's messages, in order; the visitors' requests count with the games they are about. */
  predicate On(e: Event, topic: Topic) {
    match e
    case Handled(t, _) => t == topic
    case Hide(_, _) => topic == GameEvents
  }

  function OnTopic(events: seq<Event>, topic: Topic): seq<Event> {
    if events == [] then []
    else
      OnTopic(events[..|events| - 1], topic) + if On(events[|events| - 1], topic) then [events[|events| - 1]] else []
  }

  /** Two interleavings of the same sequences. */
  ghost predicate SameTopics(a: seq<Event>, b: seq<Event>) {
    forall topic :: OnTopic(a, topic) == OnTopic(b, topic)
  }

  ghost predicate AllProper(events: seq<Event>) {
    forall i :: 0 <= i < |events| ==> Proper(events[i])
  }

  lemma AfterPush(events: seq<Event>, e: Event)
    ensures After(events + [e]) == Apply(After(events), e)
  {
    assert (events + [e])[..|events|] == events;
  }

  // ---- each part of the read model is its own topic's --------------------

  lemma LibraryStep(t: Tables, u: Tables, e: Event)
    requires t.library == u.library && Proper(e)
    ensures Apply(t, e).library == if On(e, GameEvents) then Apply(u, e).library else u.library
  {}

  lemma {:induction false} LibraryIsItsTopics(events: seq<Event>)
    requires AllProper(events)
    ensures After(events).library == After(OnTopic(events, GameEvents)).library
  {
    if events != [] {
      var init, e := events[..|events| - 1], events[|events| - 1];
      var own := OnTopic(init, GameEvents);
      LibraryIsItsTopics(init);
      LibraryStep(After(init), After(own), e);
      AfterPush(own, e);
      assert own + [] == own;
    }
  }

  lemma ReactionsStep(t: Tables, u: Tables, e: Event)
    requires t.reactions == u.reactions && Proper(e)
    ensures Apply(t, e).reactions == if On(e, CommunityEvents) then Apply(u, e).reactions else u.reactions
  {}

  lemma {:induction false} ReactionsAreTheirTopics(events: seq<Event>)
    requires AllProper(events)
    ensures After(events).reactions == After(OnTopic(events, CommunityEvents)).reactions
  {
    if events != [] {
      var init, e := events[..|events| - 1], events[|events| - 1];
      var own := OnTopic(init, CommunityEvents);
      ReactionsAreTheirTopics(init);
      ReactionsStep(After(init), After(own), e);
      AfterPush(own, e);
      assert own + [] == own;
    }
  }

  lemma ItemsStep(t: Tables, u: Tables, e: Event)
    requires t.items == u.items && Proper(e)
    ensures Apply(t, e).items == if On(e, TradeEvents) then Apply(u, e).items else u.items
  {}

  lemma {:induction false} ItemsAreTheirTopics(events: seq<Event>)
    requires AllProper(events)
    ensures After(events).items == After(OnTopic(events, TradeEvents)).items
  {
    if events != [] {
      var init, e := events[..|events| - 1], events[|events| - 1];
      var own := OnTopic(init, TradeEvents);
      ItemsAreTheirTopics(init);
      ItemsStep(After(init), After(own), e);
      AfterPush(own, e);
      assert own + [] == own;
    }
  }

  predicate IsCreation(e: Event, user: string) {
    e.Handled? &&
    match e.projection
    case CreateProfile(u, _) => u == user
    case Grant(u, _) => u == user
    case GiveItem(u, _, _, _) => u == user
    case ShelvePost(u, _, _, _) => u == user
    case ProfileOnly(u, _) => u == user
    case _ => false
  }

  function NameIn(e: Event): string {
    if e.Handled? && (e.projection.CreateProfile? || e.projection.GiveItem? || e.projection.ShelvePost? || e.projection.ProfileOnly?)
    then e.projection.displayName else ""
  }

  /** The first event that would create this profile. */
  ghost predicate IsFirst(events: seq<Event>, user: string, k: nat) {
    && k < |events| && IsCreation(events[k], user)
    && forall j :: 0 <= j < k ==> !IsCreation(events[j], user)
  }

  ghost predicate IsNamed(events: seq<Event>, user: string) {
    exists k :: 0 <= k < |events| && IsCreation(events[k], user)
  }

  lemma EnsureFacts(names: map<string, string>, u: string, name: string, user: string)
    ensures user in Ensure(names, u, name) <==> user in names || user == u
    ensures user in names ==> Ensure(names, u, name)[user] == names[user]
    ensures user !in names && user == u ==> Ensure(names, u, name)[user] == name
  {}

  /** What one event does to one display name. */
  lemma NamesStep(t: Tables, e: Event, user: string)
    ensures user in Apply(t, e).names <==> user in t.names || IsCreation(e, user)
    ensures user in t.names ==> Apply(t, e).names[user] == t.names[user]
    ensures user !in t.names && IsCreation(e, user) ==> Apply(t, e).names[user] == NameIn(e)
  {
    if e.Handled? {
      match e.projection {
        case CreateProfile(u, name) => EnsureFacts(t.names, u, name, user);
        case Grant(u, _) => EnsureFacts(t.names, u, "", user);
        case GiveItem(u, name, _, _) => EnsureFacts(t.names, u, name, user);
        case ShelvePost(u, name, _, _) => EnsureFacts(t.names, u, name, user);
        case ProfileOnly(u, name) => EnsureFacts(t.names, u, name, user);
        case _ =>
      }
    }
  }

  lemma {:induction false} ProfileIffNamed(events: seq<Event>, user: string)
    ensures user in After(events).names <==> IsNamed(events, user)
  {
    if events != [] {
      var init, e := events[..|events| - 1], events[|events| - 1];
      ProfileIffNamed(init, user);
      NamesStep(After(init), e, user);
      assert events == init + [e];
      NamedPush(init, e, user);
    }
  }

  /** First writer wins: a profile exists once some event named its user, and its display name is that of
      the first such event, whatever came later. */
  lemma {:induction false} FirstWriterNames(events: seq<Event>, user: string, k: nat)
    requires IsFirst(events, user, k)
    ensures user in After(events).names && After(events).names[user] == NameIn(events[k])
  {
    var init, e := events[..|events| - 1], events[|events| - 1];
    NamesStep(After(init), e, user);
    if k < |init| {
      assert IsFirst(init, user, k);
      FirstWriterNames(init, user, k);
    } else {
      ProfileIffNamed(init, user);
    }
  }

  ghost predicate NamedOn(events: seq<Event>, topic: Topic, user: string) {
    IsNamed(OnTopic(events, topic), user)
  }

  lemma NamedOnPush(events: seq<Event>, e: Event, topic: Topic, user: string)
    ensures NamedOn(events + [e], topic, user) <==> NamedOn(events, topic, user) || (On(e, topic) && IsCreation(e, user))
  {
    assert (events + [e])[..|events|] == events;
    NamedPush(OnTopic(events, topic), e, user);
    assert OnTopic(events, topic) + [] == OnTopic(events, topic);
  }

  lemma {:induction false} NamedOnSomeTopic(events: seq<Event>, user: string)
    ensures IsNamed(events, user) <==> exists topic :: NamedOn(events, topic, user)
  {
    if events != [] {
      var init, e := events[..|events| - 1], events[|events| - 1];
      NamedOnSomeTopic(init, user);
      assert events == init + [e];
      NamedPush(init, e, user);
      forall topic ensures NamedOn(events, topic, user) <==> NamedOn(init, topic, user) || (On(e, topic) && IsCreation(e, user)) {
        NamedOnPush(init, e, topic, user);
      }
      if IsCreation(e, user) {
        assert NamedOn(events, e.topic, user);
      }
    }
  }

  lemma NamedPush(events: seq<Event>, e: Event, user: string)
    ensures IsNamed(events + [e], user) <==> IsNamed(events, user) || IsCreation(e, user)
  {
    var all := events + [e];
    if IsNamed(events, user) {
      var k :| 0 <= k < |events| && IsCreation(events[k], user);
      assert IsCreation(all[k], user);
    }
    if IsCreation(e, user) {
      assert IsCreation(all[|events|], user);
    }
    if k :| 0 <= k < |all| && IsCreation(all[k], user) {
      assert k < |events| ==> IsCreation(events[k], user);
    }
  }

  /** Topic confluence: however the same topics interleave, the library, the reactions, the bag of items and
      the set of profiles come out the same; only display names depend on who wrote first. */
  lemma TopicsConfluent(a: seq<Event>, b: seq<Event>)
    requires AllProper(a) && AllProper(b) && SameTopics(a, b)
    ensures After(a).library == After(b).library
    ensures After(a).reactions == After(b).reactions
    ensures After(a).items == After(b).items
    ensures After(a).names.Keys == After(b).names.Keys
  {
    LibraryIsItsTopics(a);
    LibraryIsItsTopics(b);
    ReactionsAreTheirTopics(a);
    ReactionsAreTheirTopics(b);
    ItemsAreTheirTopics(a);
    ItemsAreTheirTopics(b);
    assert OnTopic(a, GameEvents) == OnTopic(b, GameEvents);
    assert OnTopic(a, CommunityEvents) == OnTopic(b, CommunityEvents);
    assert OnTopic(a, TradeEvents) == OnTopic(b, TradeEvents);
    forall user ensures user in After(a).names <==> user in After(b).names {
      SameUserNamed(a, b, user);
    }
  }

  lemma SameUserNamed(a: seq<Event>, b: seq<Event>, user: string)
    requires SameTopics(a, b)
    ensures user in After(a).names <==> user in After(b).names
  {
    ProfileIffNamed(a, user);
    ProfileIffNamed(b, user);
    NamedOnSomeTopic(a, user);
    NamedOnSomeTopic(b, user);
    forall topic ensures NamedOn(a, topic, user) <==> NamedOn(b, topic, user) {
      assert OnTopic(a, topic) == OnTopic(b, topic);
    }
  }

  /** ... and they really do: a grant and a registration in either order leave two different names. */
  lemma NamesDependOnTheOrder()
    ensures var grant := Handled(GameEvents, Grant("u", "g"));
      var register := Handled(UserEvents, CreateProfile("u", "Nadia"));
      && SameTopics([grant, register], [register, grant])
      && After([grant, register]).names["u"] == "" && After([register, grant]).names["u"] == "Nadia"
  {
    var grant := Handled(GameEvents, Grant("u", "g"));
    var register := Handled(UserEvents, CreateProfile("u", "Nadia"));
    var a, b := [grant, register], [register, grant];
    assert a[..1] == [grant] && b[..1] == [register] && [grant][..0] == [] && [register][..0] == [];
    forall topic ensures OnTopic(a, topic) == OnTopic(b, topic) {
      assert OnTopic(a, topic) == OnTopic([grant], topic) + if On(register, topic) then [register] else [];
      assert OnTopic(b, topic) == OnTopic([register], topic) + if On(grant, topic) then [grant] else [];
      assert OnTopic([], topic) == [];
    }
    assert After([grant]) == Apply(EMPTY, grant) && After([register]) == Apply(EMPTY, register);
    assert After(a) == Apply(After([grant]), register) && After(b) == Apply(After([register]), grant);
  }

  /** Every projected row's user has a profile. */
  ghost predicate RowsHaveProfiles(t: Tables) {
    && (forall p :: p in t.library ==> p.user in t.names)
    && (forall user :: user in t.reactions ==> user in t.names)
    && (forall i :: i in t.items ==> i.user in t.names)
  }

  lemma NamesOnlyGrow(t: Tables, e: Event)
    ensures t.names.Keys <= Apply(t, e).names.Keys
  {}

  lemma RowsStep(t: Tables, e: Event)
    requires RowsHaveProfiles(t)
    ensures RowsHaveProfiles(Apply(t, e))
  {
    var t' := Apply(t, e);
    NamesOnlyGrow(t, e);
    forall p | p in t'.library ensures p.user in t'.names {
      assert p in t.library || (e.Handled? && e.projection.Grant? && p.user == e.projection.owner);
    }
    forall i | i in t'.items ensures i.user in t'.names {
      assert i in t.items || (e.Handled? && e.projection.GiveItem? && i.user == e.projection.user);
    }
    forall user | user in t'.reactions ensures user in t'.names {
      assert user in t.reactions || (e.Handled? && e.projection.ShelvePost? && user == e.projection.user);
    }
  }

  lemma {:induction false} EveryRowHasAProfile(events: seq<Event>)
    ensures RowsHaveProfiles(After(events))
  {
    if events != [] {
      EveryRowHasAProfile(events[..|events| - 1]);
      RowsStep(After(events[..|events| - 1]), events[|events| - 1]);
    }
  }
}
