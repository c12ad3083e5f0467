/** The tables of the read model, and what handling one message leaves in them. */
module Projections {
  import opened Library
  import opened ProfileEvents
  import Repo = ProfileRepository
  import ShelfTable

  /** The tables a handler can touch. */
  datatype Snapshot = Snapshot(
    profiles: map<string, Repo.ProfileRow>,
    games: GameTable,
    items: map<RowId, Repo.ItemRow>,
    topPosts: ShelfTable.Table)

  function WithProfile(s: Snapshot, user: string, displayName: string): Snapshot {
    s.(profiles := if user in s.profiles then s.profiles else s.profiles[user := Repo.Named(displayName)])
  }

  ghost predicate Granting(s: Snapshot, p: Pair, s': Snapshot) {
    if Owns(s.games, p) then s' == s
    else exists id: RowId :: id !in s.games && s' == s.(games := AddRow(s.games, id, p))
  }

  ghost predicate Giving(s: Snapshot, row: Repo.ItemRow, s': Snapshot) {
    exists id: RowId :: id !in s.items && s' == s.(items := s.items[id := row])
  }

  /** The completed upsert of a reaction, under a new id and for the order the database returned. */
  function Upserting(user: string, post: string, score: int, id: RowId, order: seq<RowId>): ShelfTable.Step {
    ShelfTable.Complete(ShelfTable.Candidate(id, user, post, score), order)
  }

  ghost predicate ShelvesAs(s: Snapshot, user: string, post: string, score: int, id: RowId, order: seq<RowId>, s': Snapshot) {
    var step := Upserting(user, post, score, id, order);
    ShelfTable.Possible(s.topPosts, step) && s' == s.(topPosts := ShelfTable.Apply(s.topPosts, step))
  }

  ghost predicate Shelving(s: Snapshot, user: string, post: string, score: int, s': Snapshot) {
    exists id, order :: ShelvesAs(s, user, post, score, id, order, s')
  }

  /** What handling one message, uninterrupted, leaves in the tables. */
  ghost predicate Effect(p: Projection, s: Snapshot, s': Snapshot) {
    match p
    case CreateProfile(user, name) => s' == WithProfile(s, user, name)
    case ProfileOnly(user, name) => s' == WithProfile(s, user, name)
    case Grant(owner, game) => Granting(WithProfile(s, owner, ""), Pair(owner, game), s')
    case Revoke(owner, game) => s' == s.(games := RemoveRows(s.games, Pair(owner, game)))
    case GiveItem(user, name, item, game) => Giving(WithProfile(s, user, name), Repo.ItemRow(user, item, game), s')
    case ShelvePost(user, name, post, score) => Shelving(WithProfile(s, user, name), user, post, score, s')
    case Ignore => s' == s
    case Refuse => s' == s
  }

  predicate Raises(p: Projection) {
    p.Refuse? || p.ProfileOnly?
  }
}
