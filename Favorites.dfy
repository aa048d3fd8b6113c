/** The guest's favourites list, kept on the client: adding a hotel first
    drops any entry with the same id and then appends it, so the list holds
    each hotel once, most recently added last. */
module Favorites {
  import opened JsCore
  import opened Records

  /** `favorites.filter(h => h.id !== id)`. */
  function WithoutId(fs: seq<Hotel>, id: int): (r: seq<Hotel>)
    ensures forall i :: 0 <= i < |r| ==> r[i].id != id && r[i] in fs
    ensures forall i :: 0 <= i < |fs| && fs[i].id != id ==> fs[i] in r
    ensures SubsequenceOf(r, fs)
  {
    if fs == [] then []
    else
      var rest := WithoutId(fs[1..], id);
      if fs[0].id != id then
        assert ([fs[0]] + rest)[1..] == rest;
        [fs[0]] + rest
      else rest
  }

  /** `[...favorites.filter(h => h.id !== hotel.id), hotel]`. */
  function Added(fs: seq<Hotel>, h: Hotel): seq<Hotel>
  {
    WithoutId(fs, h.id) + [h]
  }

  /** `favorites.some(h => h.id === id)`. */
  predicate HasId(fs: seq<Hotel>, id: int)
  {
    exists i :: 0 <= i < |fs| && fs[i].id == id
  }

  ghost predicate DistinctIds(fs: seq<Hotel>)
  {
    forall i, j :: 0 <= i < j < |fs| ==> fs[i].id != fs[j].id
  }

  /** A list that has no entry with the id is left as it is. */
  lemma {:induction false} WithoutAbsentId(fs: seq<Hotel>, id: int)
    requires !HasId(fs, id)
    ensures WithoutId(fs, id) == fs
  {
    if fs != [] {
      assert !HasId(fs[1..], id) by {
        forall i | 0 <= i < |fs[1..]| ensures fs[1..][i].id != id {
          assert fs[1..][i] == fs[i + 1];
        }
      }
      WithoutAbsentId(fs[1..], id);
      assert fs[0].id != id;
    }
  }

  /** Filtering distributes over concatenation. */
  lemma {:induction false} WithoutIdAppend(a: seq<Hotel>, b: seq<Hotel>, id: int)
    ensures WithoutId(a + b, id) == WithoutId(a, id) + WithoutId(b, id)
  {
    if a == [] {
      assert a + b == b;
    } else {
      assert (a + b)[1..] == a[1..] + b;
      WithoutIdAppend(a[1..], b, id);
    }
  }

  /** After adding, exactly one entry has the hotel's id and it is the last;
      the other entries keep their relative order. */
  lemma AddedSpec(fs: seq<Hotel>, h: Hotel)
    ensures var r := Added(fs, h);
            && |r| >= 1 && r[|r| - 1] == h
            && (forall i :: 0 <= i < |r| - 1 ==> r[i].id != h.id)
            && SubsequenceOf(r[..|r| - 1], fs)
            && (forall i :: 0 <= i < |fs| && fs[i].id != h.id ==> fs[i] in r[..|r| - 1])
  {
    var r := Added(fs, h);
    assert r[..|r| - 1] == WithoutId(fs, h.id);
  }

  /** Adding keeps the ids pairwise distinct. */
  lemma AddKeepsIdsDistinct(fs: seq<Hotel>, h: Hotel)
    requires DistinctIds(fs)
    ensures DistinctIds(Added(fs, h))
  {
    var w := WithoutId(fs, h.id);
    assert DistinctIds(w) by {
      WithoutIdDistinct(fs, h.id);
    }
    var r := Added(fs, h);
    forall i, j | 0 <= i < j < |r| ensures r[i].id != r[j].id {
      if j < |w| {
        assert r[i] == w[i] && r[j] == w[j];
      } else {
        assert r[i] == w[i];
      }
    }
  }

  /** Filtering never brings in an id the list did not have. */
  lemma {:induction false} WithoutIdKeepsAbsent(fs: seq<Hotel>, id: int, other: int)
    requires !HasId(fs, other)
    ensures !HasId(WithoutId(fs, id), other)
  {
    if fs != [] {
      var tail := fs[1..];
      assert !HasId(tail, other) by {
        forall i | 0 <= i < |tail| ensures tail[i] == fs[i + 1] { }
      }
      WithoutIdKeepsAbsent(tail, id, other);
      if fs[0].id != id {
        var rest := WithoutId(tail, id);
        var r := [fs[0]] + rest;
        assert WithoutId(fs, id) == r;
        forall i | 0 <= i < |r| ensures r[i].id != other {
          if i > 0 {
            assert r[i] == rest[i - 1];
          }
        }
      }
    }
  }

  lemma {:induction false} WithoutIdDistinct(fs: seq<Hotel>, id: int)
    requires DistinctIds(fs)
    ensures DistinctIds(WithoutId(fs, id))
  {
    if fs != [] {
      var tail := fs[1..];
      assert DistinctIds(tail) && !HasId(tail, fs[0].id) by {
        forall i | 0 <= i < |tail| ensures tail[i] == fs[i + 1] { }
      }
      WithoutIdDistinct(tail, id);
      if fs[0].id != id {
        WithoutIdKeepsAbsent(tail, id, fs[0].id);
        var rest := WithoutId(tail, id);
        var r := [fs[0]] + rest;
        assert WithoutId(fs, id) == r;
        forall i, j | 0 <= i < j < |r| ensures r[i].id != r[j].id {
          assert r[j] == rest[j - 1];
          if i > 0 {
            assert r[i] == rest[i - 1];
          }
        }
      }
    }
  }

  /** Adding the same hotel twice leaves the list as adding it once. */
  lemma AddIdempotent(fs: seq<Hotel>, h: Hotel)
    ensures Added(Added(fs, h), h) == Added(fs, h)
  {
    var w := WithoutId(fs, h.id);
    WithoutIdAppend(w, [h], h.id);
    assert WithoutId([h], h.id) == [];
    WithoutAbsentId(w, h.id);
  }

  /** A hotel is a favourite right after it is added, and no longer one right
      after it is removed. */
  lemma AddThenRemove(fs: seq<Hotel>, h: Hotel, id: int)
    ensures HasId(Added(fs, h), h.id)
    ensures !HasId(WithoutId(fs, id), id)
    ensures id != h.id ==> (HasId(Added(fs, h), id) <==> HasId(fs, id))
  {
    var r := Added(fs, h);
    assert r[|r| - 1] == h;
    if id != h.id {
      if HasId(fs, id) {
        var i :| 0 <= i < |fs| && fs[i].id == id;
        assert fs[i] in WithoutId(fs, h.id);
        var k :| 0 <= k < |WithoutId(fs, h.id)| && WithoutId(fs, h.id)[k] == fs[i];
        assert r[k] == fs[i];
      }
      if HasId(r, id) {
        var i :| 0 <= i < |r| && r[i].id == id;
        assert r[i] in WithoutId(fs, h.id);
      }
    }
  }

  class FavoriteStore {
    var favorites: seq<Hotel>

    constructor ()
      ensures favorites == []
    {
      favorites := [];
    }

    method AddFavorite(h: Hotel)
      modifies this
      ensures favorites == Added(old(favorites), h)
    {
      favorites := WithoutId(favorites, h.id) + [h];
    }

    method RemoveFavorite(id: int)
      modifies this
      ensures favorites == WithoutId(old(favorites), id)
    {
      favorites := WithoutId(favorites, id);
    }

    function IsFavorite(id: int): (b: bool)
      reads this
      ensures b <==> exists i :: 0 <= i < |favorites| && favorites[i].id == id
    {
      HasId(favorites, id)
    }

    method ClearFavorites()
      modifies this
      ensures favorites == []
    {
      favorites := [];
    }
  }
}
