/** Rows of `owned_games`, and what they mean as a library. */
module Library {

  type RowId = nat

  datatype GameRow = GameRow(user: string, game: string, hidden: bool)

  type GameTable = map<RowId, GameRow>

  datatype Pair = Pair(user: string, game: string)

  function PairOf(row: GameRow): Pair {
    Pair(row.user, row.game)
  }

  /** Who owns what, and whether it is hidden. */
  type Shelfmark = map<Pair, bool>

  ghost predicate OneRowPerGame(t: GameTable) {
    forall i, j :: i in t && j in t && PairOf(t[i]) == PairOf(t[j]) ==> i == j
  }

  /** The rows say exactly what the library says. */
  ghost predicate Shows(t: GameTable, lib: Shelfmark) {
    && OneRowPerGame(t)
    && (forall id :: id in t ==> PairOf(t[id]) in lib && lib[PairOf(t[id])] == t[id].hidden)
    && (forall p :: p in lib ==> Owns(t, p))
  }

  // ---- the repository's statements ---------------------------------------

  /** `owns_game` */
  ghost predicate Owns(t: GameTable, p: Pair) {
    exists id :: id in t && PairOf(t[id]) == p
  }

  /** `add_owned_game` */
  function AddRow(t: GameTable, id: RowId, p: Pair): GameTable {
    t[id := GameRow(p.user, p.game, false)]
  }

  /** `remove_owned_game` */
  function RemoveRows(t: GameTable, p: Pair): GameTable {
    map id | id in t && PairOf(t[id]) != p :: t[id]
  }

  /** `set_hidden` */
  function HideRows(t: GameTable, p: Pair, hidden: bool): GameTable {
    map id | id in t :: if PairOf(t[id]) == p then t[id].(hidden := hidden) else t[id]
  }

  // ---- what they do to the library ---------------------------------------

  function Granted(lib: Shelfmark, p: Pair): Shelfmark {
    if p in lib then lib else lib[p := false]
  }

  function Revoked(lib: Shelfmark, p: Pair): Shelfmark {
    lib - {p}
  }

  function Hid(lib: Shelfmark, p: Pair, hidden: bool): Shelfmark {
    if p in lib then lib[p := hidden] else lib
  }

  lemma OwnsMeansListed(t: GameTable, lib: Shelfmark, p: Pair)
    requires Shows(t, lib)
    ensures Owns(t, p) <==> p in lib
  {}

  lemma AddRowGrants(t: GameTable, lib: Shelfmark, id: RowId, p: Pair)
    requires Shows(t, lib) && id !in t && !Owns(t, p)
    ensures Shows(AddRow(t, id, p), Granted(lib, p))
  {
    var t' := AddRow(t, id, p);
    assert p !in lib;
    forall q | q in Granted(lib, p) ensures Owns(t', q) {
      if q == p {
        assert PairOf(t'[id]) == p;
      } else {
        var k :| k in t && PairOf(t[k]) == q;
        assert k in t' && PairOf(t'[k]) == q;
      }
    }
  }

  lemma RemoveRowsRevokes(t: GameTable, lib: Shelfmark, p: Pair)
    requires Shows(t, lib)
    ensures Shows(RemoveRows(t, p), Revoked(lib, p))
  {
    var t' := RemoveRows(t, p);
    forall q | q in Revoked(lib, p) ensures Owns(t', q) {
      var k :| k in t && PairOf(t[k]) == q;
      assert k in t' && PairOf(t'[k]) == q;
    }
  }

  lemma HideRowsHides(t: GameTable, lib: Shelfmark, p: Pair, hidden: bool)
    requires Shows(t, lib)
    ensures Shows(HideRows(t, p, hidden), Hid(lib, p, hidden))
  {
    var t', lib' := HideRows(t, p, hidden), Hid(lib, p, hidden);
    forall id | id in t' ensures PairOf(t'[id]) == PairOf(t[id]) {}
    forall id | id in t' ensures PairOf(t'[id]) in lib' && lib'[PairOf(t'[id])] == t'[id].hidden {
      assert PairOf(t[id]) in lib;
    }
    forall q | q in lib' ensures Owns(t', q) {
      assert Owns(t, q);
      var k :| k in t && PairOf(t[k]) == q;
      assert PairOf(t'[k]) == q;
    }
  }
}
