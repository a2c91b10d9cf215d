/**
 * The order of a category listing: String.compareToIgnoreCase on titles,
 * applied by a stable sort (List.sort). The library sort is modelled by a
 * stable insertion sort, and what List.sort promises is proved about it:
 * sorted, a permutation, and equal titles kept in input order.
 */
module TitleSort {
  import opened Strings
  import opened Documents

  /** Lexicographic order on characters; a proper prefix comes first. */
  predicate LexLess(a: string, b: string)
    decreases |a|
  {
    if |a| == 0 then |b| > 0
    else if |b| == 0 then false
    else if a[0] != b[0] then a[0] < b[0]
    else LexLess(a[1..], b[1..])
  }

  lemma {:induction false} LexIrreflexive(a: string)
    ensures !LexLess(a, a)
    decreases |a|
  {
    if |a| > 0 { LexIrreflexive(a[1..]); }
  }

  lemma {:induction false} LexTransitive(a: string, b: string, c: string)
    requires LexLess(a, b) && LexLess(b, c)
    ensures LexLess(a, c)
    decreases |a|
  {
    if |a| > 0 && |b| > 0 && |c| > 0 && a[0] == b[0] == c[0] {
      LexTransitive(a[1..], b[1..], c[1..]);
    }
  }

  lemma {:induction false} LexTotal(a: string, b: string)
    ensures a == b || LexLess(a, b) || LexLess(b, a)
    decreases |a|
  {
    if |a| > 0 && |b| > 0 && a[0] == b[0] {
      LexTotal(a[1..], b[1..]);
      if a[1..] == b[1..] {
        assert a == [a[0]] + a[1..] && b == [b[0]] + b[1..];
      }
    }
  }

  /** What compareToIgnoreCase compares: the title, case-folded. */
  function Key(d: Document): string
  {
    Lower(d.title)
  }

  /** compareToIgnoreCase(d1.title, d2.title) < 0. */
  predicate TitleLess(d1: Document, d2: Document)
  {
    LexLess(Key(d1), Key(d2))
  }

  /** Titles ascend, ignoring case. */
  predicate SortedByTitle(s: seq<Document>)
  {
    forall i, j :: 0 <= i < j < |s| ==> !TitleLess(s[j], s[i])
  }

  /** The documents of `s` whose folded title is `k`, in order. */
  function WithKey(s: seq<Document>, k: string): seq<Document>
  {
    if |s| == 0 then [] else (if Key(s[0]) == k then [s[0]] else []) + WithKey(s[1..], k)
  }

  /** Insert after every document whose title does not sort after d's. */
  function Insert(d: Document, s: seq<Document>): seq<Document>
  {
    if |s| == 0 then [d]
    else if TitleLess(d, s[0]) then [d] + s
    else [s[0]] + Insert(d, s[1..])
  }

  /** The stable sort by case-insensitive title. */
  function SortByTitle(s: seq<Document>): seq<Document>
  {
    if |s| == 0 then [] else Insert(s[|s| - 1], SortByTitle(s[..|s| - 1]))
  }

  lemma {:induction false} WithKeyAppend(a: seq<Document>, b: seq<Document>, k: string)
    ensures WithKey(a + b, k) == WithKey(a, k) + WithKey(b, k)
  {
    if |a| > 0 {
      assert (a + b)[1..] == a[1..] + b;
      WithKeyAppend(a[1..], b, k);
    } else {
      assert a + b == b;
    }
  }

  lemma {:induction false} WithKeyNone(s: seq<Document>, k: string)
    requires forall e :: e in s ==> Key(e) != k
    ensures WithKey(s, k) == []
  {
    if |s| > 0 {
      assert s[0] in s;
      assert forall e :: e in s[1..] ==> e in s;
      WithKeyNone(s[1..], k);
    }
  }

  /** No document of `s` sorts strictly before `x`. */
  predicate NoneBefore(x: Document, s: seq<Document>)
  {
    forall e :: e in s ==> !TitleLess(e, x)
  }

  lemma ConsSorted(x: Document, t: seq<Document>)
    requires NoneBefore(x, t) && SortedByTitle(t)
    ensures SortedByTitle([x] + t)
  {
    var r := [x] + t;
    forall i, j | 0 <= i < j < |r| ensures !TitleLess(r[j], r[i]) {
      if i == 0 {
        assert r[j] == t[j - 1];
      } else {
        assert r[i] == t[i - 1] && r[j] == t[j - 1];
      }
    }
  }

  lemma {:induction false} InsertMultiset(d: Document, s: seq<Document>)
    ensures multiset(Insert(d, s)) == multiset(s) + multiset{d}
  {
    if |s| > 0 {
      assert s == [s[0]] + s[1..];
      if !TitleLess(d, s[0]) {
        InsertMultiset(d, s[1..]);
      }
    }
  }

  lemma {:induction false} InsertSorted(d: Document, s: seq<Document>)
    requires SortedByTitle(s)
    ensures SortedByTitle(Insert(d, s))
    ensures multiset(Insert(d, s)) == multiset(s) + multiset{d}
  {
    InsertMultiset(d, s);
    if |s| == 0 {
    } else if TitleLess(d, s[0]) {
      forall e | e in s ensures !TitleLess(e, d) {
        var m :| 0 <= m < |s| && s[m] == e;
        assert !TitleLess(e, s[0]) by {
          if m > 0 { assert !TitleLess(s[m], s[0]); } else { LexIrreflexive(Key(s[0])); }
        }
        if TitleLess(e, d) {
          LexTransitive(Key(e), Key(d), Key(s[0]));
        }
      }
      ConsSorted(d, s);
    } else {
      var tail := Insert(d, s[1..]);
      InsertSorted(d, s[1..]);
      assert s == [s[0]] + s[1..];
      forall e | e in tail ensures !TitleLess(e, s[0]) {
        assert e in multiset(tail);
        if e != d {
          assert e in s[1..];
          var m :| 0 <= m < |s[1..]| && s[1..][m] == e;
          assert s[m + 1] == e;
        }
      }
      ConsSorted(s[0], tail);
    }
  }

  lemma {:induction false} InsertStable(d: Document, s: seq<Document>, k: string)
    requires SortedByTitle(s)
    ensures WithKey(Insert(d, s), k) == WithKey(s, k) + (if Key(d) == k then [d] else [])
  {
    if |s| == 0 {
    } else if TitleLess(d, s[0]) {
      assert ([d] + s)[1..] == s;
      if Key(d) == k {
        forall e | e in s ensures Key(e) != k {
          var m :| 0 <= m < |s| && s[m] == e;
          if m > 0 {
            assert !TitleLess(s[m], s[0]);
            if Key(e) == k {
              LexIrreflexive(Key(d));
            }
          } else {
            LexIrreflexive(Key(d));
          }
        }
        WithKeyNone(s, k);
      }
    } else {
      InsertStable(d, s[1..], k);
      assert ([s[0]] + Insert(d, s[1..]))[1..] == Insert(d, s[1..]);
    }
  }

  /**
   * The sort returns the input's documents, in ascending case-folded title
   * order, with documents of equal folded title in their input order.
   */
  lemma {:induction false} SortByTitleCorrect(s: seq<Document>)
    ensures SortedByTitle(SortByTitle(s))
    ensures multiset(SortByTitle(s)) == multiset(s)
    ensures forall k :: WithKey(SortByTitle(s), k) == WithKey(s, k)
  {
    if |s| > 0 {
      var init, last := s[..|s| - 1], s[|s| - 1];
      SortByTitleCorrect(init);
      InsertSorted(last, SortByTitle(init));
      assert s == init + [last];
      forall k ensures WithKey(SortByTitle(s), k) == WithKey(s, k) {
        InsertStable(last, SortByTitle(init), k);
        WithKeyAppend(init, [last], k);
        assert WithKey([last], k) == if Key(last) == k then [last] else [];
      }
    }
  }
}
