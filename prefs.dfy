/**
 * The favourites set and the recent-files list kept in the app's
 * preferences. The persisted values live in memory here: the favourites as
 * a set of document ids, the recent list as the sequence of file paths
 * (absent until first written, and after it is cleared).
 */
module SharedPrefs {
  import opened Wrappers

  /** The recent list keeps this many paths. */
  const MaxRecent: nat := 20

  /** No path occurs twice. */
  predicate NoDup(s: seq<string>)
  {
    forall i, j :: 0 <= i < j < |s| ==> s[i] != s[j]
  }

  /** List.remove(Object): drops the first occurrence of `x`, if any. */
  function RemoveFirst(s: seq<string>, x: string): seq<string>
  {
    if |s| == 0 then []
    else if s[0] == x then s[1..]
    else [s[0]] + RemoveFirst(s[1..], x)
  }

  /** RemoveFirst cuts out exactly the first occurrence, keeping everything else in order. */
  lemma {:induction false} RemoveFirstShape(s: seq<string>, x: string) returns (i: nat)
    ensures x !in s ==> RemoveFirst(s, x) == s
    ensures x in s ==> i < |s| && s[i] == x && x !in s[..i] && RemoveFirst(s, x) == s[..i] + s[i + 1..]
  {
    if |s| == 0 {
      i := 0;
    } else if s[0] == x {
      i := 0;
      assert s[..0] == [];
    } else {
      var j := RemoveFirstShape(s[1..], x);
      i := j + 1;
      if x in s {
        assert x in s[1..];
        assert s[..i] == [s[0]] + s[1..][..j];
        assert s[i + 1..] == s[1..][j + 1..];
      }
    }
  }

  /** Removing a path from a duplicate-free list leaves it duplicate-free and without that path. */
  lemma RemoveFirstNoDup(s: seq<string>, x: string)
    requires NoDup(s)
    ensures NoDup(RemoveFirst(s, x))
    ensures x !in RemoveFirst(s, x)
    ensures forall y :: y in RemoveFirst(s, x) <==> y in s && y != x
  {
    var i := RemoveFirstShape(s, x);
    if x in s {
      var r := RemoveFirst(s, x);
      assert forall k :: 0 <= k < |r| ==> r[k] == if k < i then s[k] else s[k + 1];
      forall y ensures y in r <==> y in s && y != x {
        if y in s {
          var k :| 0 <= k < |s| && s[k] == y;
          if k < i { assert r[k] == y; } else if k > i { assert r[k - 1] == y; }
        }
      }
    }
  }

  /** addRecentFile on the stored list: remove the path, put it first, keep the first twenty. */
  function MoveToFront(recent: seq<string>, filePath: string): seq<string>
  {
    var moved := [filePath] + RemoveFirst(recent, filePath);
    if |moved| > MaxRecent then moved[..MaxRecent] else moved
  }

  /**
   * The path comes first, at most twenty entries remain, and the others are
   * the old list minus the path's first occurrence, in the old order, cut
   * after the twentieth entry.
   */
  lemma MoveToFrontShape(recent: seq<string>, filePath: string)
    ensures var r := MoveToFront(recent, filePath);
            && 0 < |r| <= MaxRecent
            && r[0] == filePath
            && r[1..] == RemoveFirst(recent, filePath)[..|r| - 1]
            && |r| == if |RemoveFirst(recent, filePath)| < MaxRecent then |RemoveFirst(recent, filePath)| + 1 else MaxRecent
  {
    var i := RemoveFirstShape(recent, filePath);
  }

  /** A duplicate-free list stays duplicate-free. */
  lemma MoveToFrontNoDup(recent: seq<string>, filePath: string)
    requires NoDup(recent)
    ensures NoDup(MoveToFront(recent, filePath))
  {
    RemoveFirstNoDup(recent, filePath);
    var moved := [filePath] + RemoveFirst(recent, filePath);
    assert NoDup(moved) by {
      forall i, j | 0 <= i < j < |moved| ensures moved[i] != moved[j] {
        if i == 0 {
          assert moved[j] in RemoveFirst(recent, filePath);
        } else {
          assert moved[i] == RemoveFirst(recent, filePath)[i - 1];
          assert moved[j] == RemoveFirst(recent, filePath)[j - 1];
        }
      }
    }
  }

  /**
   * Nothing is lost while there is room: a duplicate-free list of fewer than
   * twenty paths keeps every one of them.
   */
  lemma MoveToFrontKeepsAll(recent: seq<string>, filePath: string)
    requires NoDup(recent) && |recent| < MaxRecent
    ensures forall p :: p in MoveToFront(recent, filePath) <==> p in recent || p == filePath
  {
    RemoveFirstNoDup(recent, filePath);
    var i := RemoveFirstShape(recent, filePath);
  }

  /** Opening the most recent file again changes nothing. */
  lemma MoveToFrontIdempotent(recent: seq<string>, filePath: string)
    ensures MoveToFront(MoveToFront(recent, filePath), filePath) == MoveToFront(recent, filePath)
  {
    MoveToFrontShape(recent, filePath);
    var r := MoveToFront(recent, filePath);
    assert RemoveFirst(r, filePath) == r[1..];
    assert [filePath] + r[1..] == r;
  }

  class Store {
    /** The stored favourites set (getStringSet's default is the empty set). */
    var favorites: set<string>
    /** The stored recent list; None while the key is absent. */
    var recentStored: Option<seq<string>>

    constructor ()
      ensures favorites == {} && recentStored == None
    {
      favorites := {};
      recentStored := None;
    }

    /** getRecentFiles: the stored list, or the empty list "[]" when absent. */
    function Recent(): (r: seq<string>)
      reads this
    {
      if recentStored.Some? then recentStored.value else []
    }

    /** getFavorites: a copy of the stored set. */
    method GetFavorites() returns (r: set<string>)
      ensures r == favorites
    {
      r := favorites;
    }

    /** isFavorite: membership in the stored set. */
    method IsFavorite(documentId: string) returns (r: bool)
      ensures r <==> documentId in favorites
    {
      var current := GetFavorites();
      r := documentId in current;
    }

    /** addFavorite: the id becomes a favourite, no other membership changes. */
    method AddFavorite(documentId: string)
      modifies this
      ensures favorites == old(favorites) + {documentId}
      ensures recentStored == old(recentStored)
    {
      var current := GetFavorites();
      current := current + {documentId};
      favorites := current;
    }

    /** removeFavorite: the id stops being a favourite, no other membership changes. */
    method RemoveFavorite(documentId: string)
      modifies this
      ensures favorites == old(favorites) - {documentId}
      ensures recentStored == old(recentStored)
    {
      var current := GetFavorites();
      current := current - {documentId};
      favorites := current;
    }

    /** getRecentFiles */
    method GetRecentFiles() returns (r: seq<string>)
      ensures r == Recent()
    {
      r := if recentStored.Some? then recentStored.value else [];
    }

    /** addRecentFile: read, remove, prepend, cut to twenty, write back. */
    method AddRecentFile(filePath: string)
      modifies this
      ensures recentStored == Some(MoveToFront(old(Recent()), filePath))
      ensures Recent()[0] == filePath && |Recent()| <= MaxRecent
      ensures NoDup(old(Recent())) ==> NoDup(Recent())
      ensures favorites == old(favorites)
    {
      MoveToFrontShape(Recent(), filePath);
      if NoDup(Recent()) {
        MoveToFrontNoDup(Recent(), filePath);
      }
      var recent := GetRecentFiles();
      recent := RemoveFirst(recent, filePath);
      recent := [filePath] + recent;
      if |recent| > MaxRecent {
        recent := recent[..MaxRecent];
      }
      recentStored := Some(recent);
    }

    /** clearRecentFiles: removes the key, so the list reads as empty again. */
    method ClearRecentFiles()
      modifies this
      ensures recentStored == None && Recent() == []
      ensures favorites == old(favorites)
    {
      recentStored := None;
    }
  }
}
