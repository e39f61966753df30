/** The favorites endpoints: a user bookmarks or un-bookmarks a professional. The table is
    keyed by the pair (userId, professionalId), so it is modelled as a set of pairs. */
module Favorites {
  type UserId = string
  type ProfessionalId = string

  /** One row of the favorites table, identified by its key pair. */
  datatype Favorite = Favorite(userId: UserId, professionalId: ProfessionalId)

  /** The outcome of `DELETE /favorites/:professionalId`: the row was deleted, or there was no
      such row and the database call failed. */
  datatype DeleteOutcome = Deleted | RecordNotFound

  /** The table after `upsert` with `update: {}`: the row is created when missing, and an
      existing row is left as it is. */
  function Upserted(table: set<Favorite>, f: Favorite): (r: set<Favorite>)
    ensures f in r
    ensures forall g :: g != f ==> (g in r <==> g in table)
  {
    table + {f}
  }

  /** The table after `delete` on the key of `f`. */
  function Removed(table: set<Favorite>, f: Favorite): (r: set<Favorite>)
    ensures f !in r
    ensures forall g :: g != f ==> (g in r <==> g in table)
  {
    table - {f}
  }

  /** The professionals bookmarked by `userId` (`GET /favorites`). */
  function FavoritesOf(table: set<Favorite>, userId: UserId): set<ProfessionalId>
  {
    set f | f in table && f.userId == userId :: f.professionalId
  }

  /** Adding a favorite twice leaves the same table as adding it once. */
  lemma UpsertIdempotent(table: set<Favorite>, f: Favorite)
    ensures Upserted(Upserted(table, f), f) == Upserted(table, f)
  {
  }

  /** Adding a favorite that was missing and deleting it again restores the table. */
  lemma DeleteUndoesUpsert(table: set<Favorite>, f: Favorite)
    requires f !in table
    ensures Removed(Upserted(table, f), f) == table
  {
  }

  /** Bookmarking adds exactly that professional to that user's favorites and changes no other
      user's. */
  lemma UpsertChangesOnlyThatUser(table: set<Favorite>, u: UserId, p: ProfessionalId, other: UserId)
    requires other != u
    ensures FavoritesOf(Upserted(table, Favorite(u, p)), u) == FavoritesOf(table, u) + {p}
    ensures FavoritesOf(Upserted(table, Favorite(u, p)), other) == FavoritesOf(table, other)
  {
    var t := Upserted(table, Favorite(u, p));
    assert Favorite(u, p) in t;
    forall x | x in FavoritesOf(t, u) ensures x in FavoritesOf(table, u) + {p} {
      var f :| f in t && f.userId == u && f.professionalId == x;
      if f != Favorite(u, p) {
        assert f in table;
      }
    }
    forall x | x in FavoritesOf(table, u) + {p} ensures x in FavoritesOf(t, u) {
      if x != p {
        var f :| f in table && f.userId == u && f.professionalId == x;
        assert f in t;
      }
    }
    forall x | x in FavoritesOf(t, other) ensures x in FavoritesOf(table, other) {
      var f :| f in t && f.userId == other && f.professionalId == x;
      assert f in table;
    }
    forall x | x in FavoritesOf(table, other) ensures x in FavoritesOf(t, other) {
      var f :| f in table && f.userId == other && f.professionalId == x;
      assert f in t;
    }
  }

  /** Un-bookmarking removes exactly that professional from that user's favorites and changes no
      other user's. */
  lemma DeleteChangesOnlyThatUser(table: set<Favorite>, u: UserId, p: ProfessionalId, other: UserId)
    requires other != u
    ensures FavoritesOf(Removed(table, Favorite(u, p)), u) == FavoritesOf(table, u) - {p}
    ensures FavoritesOf(Removed(table, Favorite(u, p)), other) == FavoritesOf(table, other)
  {
    var t := Removed(table, Favorite(u, p));
    forall x | x in FavoritesOf(t, u) ensures x in FavoritesOf(table, u) - {p} {
      var f :| f in t && f.userId == u && f.professionalId == x;
      assert f in table;
    }
    forall x | x in FavoritesOf(table, u) - {p} ensures x in FavoritesOf(t, u) {
      var f :| f in table && f.userId == u && f.professionalId == x;
      assert f in t;
    }
    forall x | x in FavoritesOf(t, other) ensures x in FavoritesOf(table, other) {
      var f :| f in t && f.userId == other && f.professionalId == x;
      assert f in table;
    }
    forall x | x in FavoritesOf(table, other) ensures x in FavoritesOf(t, other) {
      var f :| f in table && f.userId == other && f.professionalId == x;
      assert f in t;
    }
  }

  /** The favorites table behind the three endpoints. */
  class FavoriteStore {
    var table: set<Favorite>

    constructor ()
      ensures table == {}
    {
      table := {};
    }

    /** `POST /favorites/:professionalId`: upsert the row of the signed-in user. */
    method Add(userId: UserId, professionalId: ProfessionalId) returns (favorite: Favorite)
      modifies this
      ensures favorite == Favorite(userId, professionalId)
      ensures table == Upserted(old(table), favorite)
    {
      favorite := Favorite(userId, professionalId);
      table := table + {favorite};
    }

    /** `DELETE /favorites/:professionalId`: delete the row of the signed-in user; deleting a
        row that does not exist fails and changes nothing. */
    method Remove(userId: UserId, professionalId: ProfessionalId) returns (outcome: DeleteOutcome)
      modifies this
      ensures outcome == Deleted <==> Favorite(userId, professionalId) in old(table)
      ensures table == Removed(old(table), Favorite(userId, professionalId))
    {
      var key := Favorite(userId, professionalId);
      if key in table {
        table := table - {key};
        outcome := Deleted;
      } else {
        outcome := RecordNotFound;
      }
    }

    /** `GET /favorites`: the professionals the signed-in user bookmarked. */
    method List(userId: UserId) returns (professionals: set<ProfessionalId>)
      ensures professionals == FavoritesOf(table, userId)
      ensures forall p :: p in professionals <==> Favorite(userId, p) in table
    {
      professionals := set f | f in table && f.userId == userId :: f.professionalId;
      forall p | Favorite(userId, p) in table ensures p in professionals {
        assert Favorite(userId, p).professionalId == p;
      }
    }
  }
}
