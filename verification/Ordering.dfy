/** The orders the program sorts by, and sorting itself. */
module Ordering {

  // ---------------------------------------------------------------------------
  // Byte-wise order of strings, and of records of strings
  // ---------------------------------------------------------------------------

  predicate StringLe(a: string, b: string)
  {
    a == [] || (b != [] && (a[0] < b[0] || (a[0] == b[0] && StringLe(a[1..], b[1..]))))
  }

  lemma {:induction false} StringLeTotal(a: string, b: string)
    ensures StringLe(a, b) || StringLe(b, a)
    ensures StringLe(a, b) && StringLe(b, a) ==> a == b
  {
    if a != [] && b != [] && a[0] == b[0] {
      StringLeTotal(a[1..], b[1..]);
      assert a == [a[0]] + a[1..] && b == [b[0]] + b[1..];
    }
  }

  lemma {:induction false} StringLeTransitive(a: string, b: string, c: string)
    requires StringLe(a, b) && StringLe(b, c)
    ensures StringLe(a, c)
  {
    if a != [] && a[0] == b[0] == c[0] {
      StringLeTransitive(a[1..], b[1..], c[1..]);
    }
  }

  /** A prefix comes first; otherwise the first difference decides. */
  lemma {:induction false} StringLeByFirstDifference(a: string, b: string)
    ensures StringLe(a, b) <==>
            a <= b || exists i :: 0 <= i < |a| && i < |b| && a[..i] == b[..i] && a[i] < b[i]
  {
    if a != [] && b != [] {
      StringLeByFirstDifference(a[1..], b[1..]);
      if a[0] == b[0] {
        assert a[1..] <= b[1..] <==> a <= b;
        if i :| 0 <= i < |a[1..]| && i < |b[1..]| && a[1..][..i] == b[1..][..i] && a[1..][i] < b[1..][i] {
          assert a[..i + 1] == [a[0]] + a[1..][..i] && b[..i + 1] == [b[0]] + b[1..][..i];
          assert a[i + 1] < b[i + 1];
        }
        if i :| 0 < i < |a| && i < |b| && a[..i] == b[..i] && a[i] < b[i] {
          assert a[1..][..i - 1] == a[..i][1..] && b[1..][..i - 1] == b[..i][1..];
          assert a[1..][i - 1] < b[1..][i - 1];
        }
      } else {
        assert a[..0] == b[..0];
      }
    }
  }

  /** Field by field, the first difference decides. */
  predicate RecordLe(a: seq<string>, b: seq<string>)
  {
    a == [] || (b != [] && if a[0] == b[0] then RecordLe(a[1..], b[1..]) else StringLe(a[0], b[0]))
  }

  lemma {:induction false} RecordLeTotal(a: seq<string>, b: seq<string>)
    ensures RecordLe(a, b) || RecordLe(b, a)
    ensures RecordLe(a, b) && RecordLe(b, a) ==> a == b
  {
    if a != [] && b != [] {
      StringLeTotal(a[0], b[0]);
      RecordLeTotal(a[1..], b[1..]);
      assert a == [a[0]] + a[1..] && b == [b[0]] + b[1..];
    }
  }

  lemma {:induction false} RecordLeTransitive(a: seq<string>, b: seq<string>, c: seq<string>)
    requires RecordLe(a, b) && RecordLe(b, c)
    ensures RecordLe(a, c)
  {
    if a != [] {
      if a[0] == b[0] == c[0] {
        RecordLeTransitive(a[1..], b[1..], c[1..]);
      } else {
        StringLeTotal(a[0], b[0]);
        if StringLe(a[0], b[0]) && StringLe(b[0], c[0]) {
          StringLeTransitive(a[0], b[0], c[0]);
          StringLeTotal(a[0], c[0]);
        }
        StringLeTotal(b[0], c[0]);
      }
    }
  }

  // ---------------------------------------------------------------------------
  // Sorting records
  // ---------------------------------------------------------------------------

  predicate SortedBy<T(!new)>(s: seq<T>, key: T -> seq<string>)
  {
    forall i, j :: 0 <= i < j < |s| ==> RecordLe(key(s[i]), key(s[j]))
  }

  /** A library sort stands behind this; any sort by `key` has this contract. */
  method Sort<T(!new,==)>(s: seq<T>, key: T -> seq<string>) returns (r: seq<T>)
    ensures SortedBy(r, key) && multiset(r) == multiset(s)
  {
    r := [];
    for i := 0 to |s|
      invariant SortedBy(r, key) && multiset(r) == multiset(s[..i])
    {
      r := Insert(s[i], r, key);
      assert s[..i + 1] == s[..i] + [s[i]];
    }
    assert s[..|s|] == s;
  }

  method Insert<T(!new,==)>(x: T, s: seq<T>, key: T -> seq<string>) returns (r: seq<T>)
    requires SortedBy(s, key)
    ensures SortedBy(r, key) && multiset(r) == multiset(s) + multiset{x}
  {
    var i := |s|;
    while i > 0 && !RecordLe(key(s[i - 1]), key(x))
      invariant 0 <= i <= |s|
      invariant forall j :: i <= j < |s| ==> RecordLe(key(x), key(s[j]))
    {
      RecordLeTotal(key(s[i - 1]), key(x));
      i := i - 1;
    }
    if i > 0 {
      forall j | 0 <= j < i ensures RecordLe(key(s[j]), key(x)) {
        if j < i - 1 {
          RecordLeTransitive(key(s[j]), key(s[i - 1]), key(x));
        }
      }
    }
    r := s[..i] + [x] + s[i..];
    assert s == s[..i] + s[i..];
  }

  /** Records with pairwise different keys have only one sorted order. */
  lemma {:induction false} SortedUnique<T(!new)>(s: seq<T>, t: seq<T>, key: T -> seq<string>)
    requires SortedBy(s, key) && SortedBy(t, key) && multiset(s) == multiset(t)
    requires forall x, y :: x in s && y in s && key(x) == key(y) ==> x == y
    ensures s == t
  {
    assert |s| == |multiset(s)| == |multiset(t)| == |t|;
    if s != [] {
      hide SortedBy;
      SameHead(s, t, key);
      TailOf(s, key);
      TailOf(t, key);
      SortedUnique(s[1..], t[1..], key);
    }
  }

  lemma SameHead<T(!new)>(s: seq<T>, t: seq<T>, key: T -> seq<string>)
    requires s != [] && t != [] && SortedBy(s, key) && SortedBy(t, key) && multiset(s) == multiset(t)
    requires forall x, y :: x in s && y in s && key(x) == key(y) ==> x == y
    ensures s[0] == t[0]
  {
    hide RecordLe;
    assert t[0] in multiset(s) && s[0] in multiset(t);
    var i :| 0 <= i < |s| && s[i] == t[0];
    var j :| 0 <= j < |t| && t[j] == s[0];
    RecordLeTotal(key(s[0]), key(t[0]));
    RecordLeTotal(key(s[0]), key(s[0]));
  }

  lemma TailOf<T(!new)>(s: seq<T>, key: T -> seq<string>)
    requires s != [] && SortedBy(s, key)
    ensures SortedBy(s[1..], key) && multiset(s[1..]) == multiset(s) - multiset{s[0]}
    ensures forall x :: x in s[1..] ==> x in s
  {
    hide RecordLe;
    assert s == [s[0]] + s[1..];
  }

  // ---------------------------------------------------------------------------
  // Lists without repetition
  // ---------------------------------------------------------------------------

  ghost predicate NoRepeats<T>(s: seq<T>)
  {
    forall i, j :: 0 <= i < j < |s| ==> s[i] != s[j]
  }

  lemma {:induction false} NoRepeatsCounts<T>(s: seq<T>)
    ensures NoRepeats(s) <==> multiset(s) == multiset(set x | x in s)
  {
    if s != [] {
      var init, last := s[..|s| - 1], s[|s| - 1];
      NoRepeatsCounts(init);
      assert s == init + [last];
      assert (set x | x in s) == (set x | x in init) + {last};
      assert multiset(s) == multiset(init) + multiset{last};
      if last in init {
        var i :| 0 <= i < |init| && init[i] == last;
        RepeatCounts(s, i, |init|);
        assert s[i] == s[|init|];
      } else {
        RepeatsBefore(init, last);
        assert multiset(set x | x in s) == multiset(set x | x in init) + multiset{last};
        assert multiset(init) == multiset(s) - multiset{last};
      }
    }
  }

  lemma RepeatsBefore<T>(init: seq<T>, last: T)
    requires last !in init
    ensures NoRepeats(init + [last]) <==> NoRepeats(init)
  {
    var s := init + [last];
    if NoRepeats(s) {
      forall i, j | 0 <= i < j < |init| ensures init[i] != init[j] {
        assert s[i] == init[i] && s[j] == init[j];
      }
    }
  }

  lemma RepeatCounts<T>(s: seq<T>, i: nat, j: nat)
    requires i < j < |s| && s[i] == s[j]
    ensures multiset(s)[s[i]] >= 2
  {
    assert s == s[..j] + s[j..];
    assert s[..j][i] == s[i] && s[j..][0] == s[i];
    assert s[i] in multiset(s[..j]) && s[i] in multiset(s[j..]);
  }

  /** The members of a set: in some order, each once. */
  method ToList<T(==)>(items: set<T>) returns (list: seq<T>)
    ensures multiset(list) == multiset(items) && NoRepeats(list)
    ensures forall x :: x in list <==> x in items
  {
    list := [];
    var todo := items;
    while todo != {}
      invariant todo <= items && NoRepeats(list)
      invariant forall x :: x in list <==> x in items - todo
      invariant multiset(list) == multiset(items - todo)
    {
      var item :| item in todo;
      assert items - (todo - {item}) == (items - todo) + {item};
      todo := todo - {item};
      list := list + [item];
    }
    assert items - todo == items;
  }

  /** The key that sorts texts by themselves. */
  function ByText(s: string): seq<string>
  {
    [s]
  }

  // ---------------------------------------------------------------------------
  // A set as a sorted list
  // ---------------------------------------------------------------------------

  ghost predicate Injective<T(!new)>(key: T -> seq<string>)
  {
    forall x, y :: key(x) == key(y) ==> x == y
  }

  predicate IsLeast<T(!new,==)>(m: T, s: set<T>, key: T -> seq<string>)
  {
    m in s && forall x :: x in s ==> RecordLe(key(m), key(x))
  }

  lemma {:induction false} HasLeast<T(!new)>(s: set<T>, key: T -> seq<string>)
    requires s != {}
    ensures exists m :: m in s && IsLeast(m, s, key)
  {
    var x :| x in s;
    RecordLeTotal(key(x), key(x));
    if s != {x} {
      var rest := s - {x};
      assert s == rest + {x};
      HasLeast(rest, key);
      var m :| m in rest && IsLeast(m, rest, key);
      RecordLeTotal(key(m), key(x));
      if RecordLe(key(x), key(m)) {
        forall y | y in s ensures RecordLe(key(x), key(y)) {
          if y != x { RecordLeTransitive(key(x), key(m), key(y)); }
        }
        assert IsLeast(x, s, key);
      } else {
        assert IsLeast(m, s, key);
      }
    } else {
      assert IsLeast(x, s, key);
    }
  }

  lemma OneLeast<T(!new)>(s: set<T>, key: T -> seq<string>)
    requires Injective(key)
    ensures forall m, n :: IsLeast(m, s, key) && IsLeast(n, s, key) ==> m == n
  {
    forall m, n | IsLeast(m, s, key) && IsLeast(n, s, key) ensures m == n {
      RecordLeTotal(key(m), key(n));
    }
  }

  function ListBy<T(!new,==)>(s: set<T>, key: T -> seq<string>): seq<T>
    requires Injective(key)
  {
    if s == {} then []
    else
      HasLeast(s, key);
      OneLeast(s, key);
      var m :| m in s && IsLeast(m, s, key);
      [m] + ListBy(s - {m}, key)
  }

  lemma {:induction false} ListByIsSorted<T(!new)>(s: set<T>, key: T -> seq<string>)
    requires Injective(key)
    ensures multiset(ListBy(s, key)) == multiset(s) && SortedBy(ListBy(s, key), key)
    ensures forall x :: x in ListBy(s, key) <==> x in s
    decreases |s|
  {
    if s != {} {
      HasLeast(s, key);
      OneLeast(s, key);
      var m :| m in s && IsLeast(m, s, key);
      var rest := ListBy(s - {m}, key);
      ListByIsSorted(s - {m}, key);
      assert ListBy(s, key) == [m] + rest;
      assert s == s - {m} + {m};
    }
  }
}
