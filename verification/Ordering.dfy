/** Python's `sorted` on items that are ordered by a string, such as the items of a
    dictionary or the paths of a patch. */
module Ordering {

  /** Lexicographic order on strings. */
  predicate AtMost(a: string, b: string) {
    if a == [] then true
    else if b == [] then false
    else if a[0] != b[0] then a[0] < b[0]
    else AtMost(a[1..], b[1..])
  }

  predicate Before(a: string, b: string) {
    AtMost(a, b) && a != b
  }

  lemma {:induction false} Total(a: string, b: string)
    ensures AtMost(a, b) || AtMost(b, a)
    ensures AtMost(a, b) && AtMost(b, a) ==> a == b
  {
    if a != [] && b != [] {
      Total(a[1..], b[1..]);
      assert a == [a[0]] + a[1..] && b == [b[0]] + b[1..];
    }
  }

  lemma {:induction false} Transitive(a: string, b: string, c: string)
    requires AtMost(a, b) && AtMost(b, c)
    ensures AtMost(a, c)
  {
    if a != [] && a[0] == b[0] == c[0] {
      Transitive(a[1..], b[1..], c[1..]);
    }
  }

  function Insert<T>(item: T, items: seq<T>, key: T -> string): (r: seq<T>)
    ensures multiset(r) == multiset{item} + multiset(items)
  {
    if items == [] then [item]
    else if AtMost(key(item), key(items[0])) then
      assert [item] + items == [item] + items;
      [item] + items
    else
      assert items == [items[0]] + items[1..];
      [items[0]] + Insert(item, items[1..], key)
  }

  /** `sorted` */
  function Sort<T>(items: seq<T>, key: T -> string): (r: seq<T>)
    ensures multiset(r) == multiset(items)
    ensures |r| == |items|
  {
    if items == [] then [] else
      assert items == [items[0]] + items[1..];
      var r := Insert(items[0], Sort(items[1..], key), key);
      assert |multiset(r)| == |r| && |multiset(items)| == |items|;
      r
  }

  predicate Sorted<T>(items: seq<T>, key: T -> string) {
    forall i :: 0 < i < |items| ==> AtMost(key(items[i - 1]), key(items[i]))
  }

  predicate Distinct<T>(items: seq<T>, key: T -> string) {
    forall i, j :: 0 <= i < j < |items| ==> key(items[i]) != key(items[j])
  }

  lemma {:induction false} FirstIsLeast<T>(items: seq<T>, key: T -> string, i: nat)
    requires Sorted(items, key) && i < |items|
    ensures AtMost(key(items[0]), key(items[i]))
  {
    if i == 0 {
      Total(key(items[0]), key(items[0]));
    } else {
      FirstIsLeast(items, key, i - 1);
      Transitive(key(items[0]), key(items[i - 1]), key(items[i]));
    }
  }

  lemma {:induction false} InsertSorted<T>(item: T, items: seq<T>, key: T -> string)
    requires Sorted(items, key)
    ensures Sorted(Insert(item, items, key), key)
  {
    if items != [] && !AtMost(key(item), key(items[0])) {
      var rest := items[1..];
      assert forall i :: 0 < i < |rest| ==> rest[i - 1] == items[i] && rest[i] == items[i + 1];
      InsertSorted(item, rest, key);
      var r := Insert(item, rest, key);
      Total(key(item), key(items[0]));
      assert r[0] == item || (rest != [] && r[0] == rest[0]);
      assert forall i :: 0 < i < |r| ==> ([items[0]] + r)[i + 1] == r[i] && ([items[0]] + r)[i] == r[i - 1];
      var whole := [items[0]] + r;
      forall i | 0 < i < |whole| ensures AtMost(key(whole[i - 1]), key(whole[i])) {
        if i > 1 {
          assert whole[i - 1] == r[i - 2] && whole[i] == r[i - 1];
        }
      }
    }
  }

  lemma {:induction false} SortSorted<T>(items: seq<T>, key: T -> string)
    ensures Sorted(Sort(items, key), key)
  {
    if items != [] {
      SortSorted(items[1..], key);
      InsertSorted(items[0], Sort(items[1..], key), key);
    }
  }

  /** A sorted list with distinct keys is determined by its contents. */
  lemma {:induction false} SortedUnique<T>(a: seq<T>, b: seq<T>, key: T -> string)
    requires Sorted(a, key) && Sorted(b, key) && Distinct(a, key) && Distinct(b, key)
    requires multiset(a) == multiset(b)
    ensures a == b
  {
    hide AtMost;
    assert |multiset(a)| == |a| && |multiset(b)| == |b|;
    if a != [] {
      SameFirst(a, b, key);
      assert a == [a[0]] + a[1..] && b == [b[0]] + b[1..];
      assert multiset(a[1..]) == multiset(a) - multiset{a[0]};
      assert multiset(b[1..]) == multiset(b) - multiset{b[0]};
      TailKeeps(a, key);
      TailKeeps(b, key);
      SortedUnique(a[1..], b[1..], key);
    }
  }

  lemma SameFirst<T>(a: seq<T>, b: seq<T>, key: T -> string)
    requires a != [] && b != [] && multiset(a) == multiset(b)
    requires Sorted(a, key) && Sorted(b, key) && Distinct(b, key)
    ensures a[0] == b[0]
  {
    hide AtMost;
    assert a[0] in multiset(b) && b[0] in multiset(a);
    var j :| 0 <= j < |b| && b[j] == a[0];
    var i :| 0 <= i < |a| && a[i] == b[0];
    FirstIsLeast(a, key, i);
    FirstIsLeast(b, key, j);
    Total(key(a[0]), key(b[0]));
  }

  lemma TailKeeps<T>(a: seq<T>, key: T -> string)
    requires a != [] && Sorted(a, key) && Distinct(a, key)
    ensures Sorted(a[1..], key) && Distinct(a[1..], key)
  {
    var t := a[1..];
    forall i | 0 < i < |t| ensures AtMost(key(t[i - 1]), key(t[i])) {
      assert AtMost(key(a[i + 1 - 1]), key(a[i + 1]));
    }
  }

  /** Permutations have the same members. */
  lemma SameMember<T>(a: seq<T>, b: seq<T>, x: T)
    requires multiset(a) == multiset(b) && x in a
    ensures x in b
  {
    assert x in multiset(a);
    assert x in multiset(b);
  }

  lemma ConsDistinct<T>(item: T, items: seq<T>, key: T -> string)
    requires Distinct(items, key) && forall i :: 0 <= i < |items| ==> key(items[i]) != key(item)
    ensures Distinct([item] + items, key)
  {
    var whole := [item] + items;
    forall i, j | 0 <= i < j < |whole| ensures key(whole[i]) != key(whole[j]) {
      assert whole[j] == items[j - 1];
      if i > 0 {
        assert whole[i] == items[i - 1];
      }
    }
  }

  lemma {:induction false} InsertDistinct<T>(item: T, items: seq<T>, key: T -> string)
    requires Distinct(items, key) && forall i :: 0 <= i < |items| ==> key(items[i]) != key(item)
    ensures Distinct(Insert(item, items, key), key)
  {
    hide AtMost;
    if items == [] || AtMost(key(item), key(items[0])) {
      ConsDistinct(item, items, key);
      assert [item] + [] == [item];
    } else {
      var rest := items[1..];
      var r := Insert(item, rest, key);
      InsertDistinct(item, rest, key);
      forall i | 0 <= i < |r| ensures key(r[i]) != key(items[0]) {
        SameMember(r, [item] + rest, r[i]);
        if r[i] != item {
          var k :| 0 <= k < |rest| && rest[k] == r[i];
          assert rest[k] == items[k + 1];
        }
      }
      ConsDistinct(items[0], r, key);
    }
  }

  lemma {:induction false} SortDistinct<T>(items: seq<T>, key: T -> string)
    requires Distinct(items, key)
    ensures Distinct(Sort(items, key), key)
  {
    if items != [] {
      SortDistinct(items[1..], key);
      var rest := Sort(items[1..], key);
      forall i | 0 <= i < |rest| ensures key(rest[i]) != key(items[0]) {
        var x := rest[i];
        SameMember(Sort(items[1..], key), items[1..], x);
        var k :| 0 <= k < |items[1..]| && items[1..][k] == x;
        assert x == items[k + 1];
      }
      InsertDistinct(items[0], Sort(items[1..], key), key);
    }
  }

  /** Sorting forgets the original order and nothing else. */
  lemma SortForgetsOrder<T>(a: seq<T>, b: seq<T>, key: T -> string)
    requires Distinct(a, key) && Distinct(b, key)
    ensures Sort(a, key) == Sort(b, key) <==> multiset(a) == multiset(b)
  {
    if multiset(a) == multiset(b) {
      SortSorted(a, key);
      SortSorted(b, key);
      SortDistinct(a, key);
      SortDistinct(b, key);
      SortedUnique(Sort(a, key), Sort(b, key), key);
    }
  }
}
