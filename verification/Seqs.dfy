/** Queues of distinct elements: removal, restriction to a set, first occurrences, order; and maps
    to sets. */
module Seqs {

  /** The set under a key, empty for a key that is not there. */
  function At<K(==), V>(m: map<K, set<V>>, k: K): set<V> {
    if k in m then m[k] else {}
  }

  ghost predicate NoDup<T>(s: seq<T>) {
    forall i, j | 0 <= i < j < |s| :: s[i] != s[j]
  }

  ghost function Elems<T>(s: seq<T>): set<T> {
    set x | x in s
  }

  /** All occurrences of `x` removed, as `std::list::remove` does. */
  function Without<T(==)>(s: seq<T>, x: T): seq<T> {
    if s == [] then []
    else if s[0] == x then Without(s[1..], x)
    else [s[0]] + Without(s[1..], x)
  }

  /** The elements of `s` that belong to `keep`, in their order. */
  function Keep<T(==)>(s: seq<T>, keep: set<T>): seq<T> {
    if s == [] then []
    else if s[0] in keep then [s[0]] + Keep(s[1..], keep)
    else Keep(s[1..], keep)
  }

  /** The first occurrences in `s` of elements outside `known`, in order. */
  function FirstNew<T(==)>(s: seq<T>, known: set<T>): seq<T> {
    if s == [] then []
    else if s[0] in known then FirstNew(s[1..], known)
    else [s[0]] + FirstNew(s[1..], known + {s[0]})
  }

  lemma SomeIn<T>(s: seq<T>)
    ensures s == [] || exists x :: x in s
  {
    if s != [] {
      assert s[0] in s;
    }
  }

  lemma {:induction false} WithoutElems<T>(s: seq<T>, x: T)
    ensures forall y :: y in Without(s, x) <==> y in s && y != x
    ensures NoDup(s) ==> NoDup(Without(s, x))
  {
    if s != [] {
      WithoutElems(s[1..], x);
      assert forall y :: y in s <==> y == s[0] || y in s[1..];
      if NoDup(s) && s[0] != x {
        NoDupAppend([s[0]], Without(s[1..], x));
      }
    }
  }

  lemma {:induction false} WithoutAbsent<T>(s: seq<T>, x: T)
    requires x !in s
    ensures Without(s, x) == s
  {
    if s != [] {
      WithoutAbsent(s[1..], x);
    }
  }

  lemma {:induction false} KeepElems<T>(s: seq<T>, keep: set<T>)
    ensures forall y :: y in Keep(s, keep) <==> y in s && y in keep
    ensures NoDup(s) ==> NoDup(Keep(s, keep))
  {
    if s != [] {
      KeepElems(s[1..], keep);
      assert forall y :: y in s <==> y == s[0] || y in s[1..];
    }
  }

  lemma {:induction false} KeepAppend<T>(s: seq<T>, t: seq<T>, keep: set<T>)
    ensures Keep(s + t, keep) == Keep(s, keep) + Keep(t, keep)
  {
    if s == [] {
      assert s + t == t;
    } else {
      assert (s + t)[1..] == s[1..] + t;
      KeepAppend(s[1..], t, keep);
    }
  }

  lemma {:induction false} KeepAll<T>(s: seq<T>, keep: set<T>)
    requires forall x <- s :: x in keep
    ensures Keep(s, keep) == s
  {
    if s != [] {
      assert s[0] in s;
      KeepAll(s[1..], keep);
    }
  }

  lemma {:induction false} KeepWithout<T>(s: seq<T>, keep: set<T>, x: T)
    ensures Without(Keep(s, keep), x) == Keep(s, keep - {x})
  {
    if s != [] {
      KeepWithout(s[1..], keep, x);
      if s[0] in keep {
        assert Keep(s, keep)[1..] == Keep(s[1..], keep);
      }
    }
  }

  lemma {:induction false} FirstNewElems<T>(s: seq<T>, known: set<T>)
    ensures forall y :: y in FirstNew(s, known) <==> y in s && y !in known
    ensures NoDup(FirstNew(s, known))
  {
    if s != [] {
      assert forall y :: y in s <==> y == s[0] || y in s[1..];
      FirstNewElems(s[1..], known);
      FirstNewElems(s[1..], known + {s[0]});
    }
  }

  // ----- Order -----

  /** `x` stands somewhere before `y`. */
  ghost predicate Before<T>(s: seq<T>, x: T, y: T) {
    exists p, q | 0 <= p < q < |s| :: s[p] == x && s[q] == y
  }

  /** The place of the first occurrence. */
  function FirstAt<T(==)>(s: seq<T>, x: T): (i: nat)
    requires x in s
    ensures i < |s| && s[i] == x && x !in s[..i]
  {
    if s[0] == x then 0 else
      var i := FirstAt(s[1..], x);
      assert s[..i + 1] == [s[0]] + s[1..][..i];
      i + 1
  }

  lemma BeforeTail<T>(s: seq<T>, x: T, y: T)
    requires s != []
    ensures Before(s, x, y) <==> (s[0] == x && y in s[1..]) || Before(s[1..], x, y)
  {
    var t := s[1..];
    if s[0] == x && y in t {
      var q :| 0 <= q < |t| && t[q] == y;
      assert s[0] == x && s[q + 1] == y;
    }
    if Before(t, x, y) {
      var p, q :| 0 <= p < q < |t| && t[p] == x && t[q] == y;
      assert s[p + 1] == x && s[q + 1] == y;
    }
    if Before(s, x, y) {
      var p, q :| 0 <= p < q < |s| && s[p] == x && s[q] == y;
      assert t[q - 1] == y;
      if p > 0 {
        assert t[p - 1] == x;
      }
    }
  }

  lemma {:induction false} BeforeAppend<T>(s: seq<T>, t: seq<T>, x: T, y: T)
    ensures Before(s + t, x, y) <==> Before(s, x, y) || Before(t, x, y) || (x in s && y in t)
  {
    if s == [] {
      assert s + t == t;
    } else {
      BeforeTail(s + t, x, y);
      BeforeTail(s, x, y);
      assert (s + t)[1..] == s[1..] + t;
      BeforeAppend(s[1..], t, x, y);
    }
  }

  /** Restriction keeps the order of what it keeps. */
  lemma {:induction false} KeepOrder<T>(s: seq<T>, keep: set<T>, x: T, y: T)
    requires x in keep && y in keep
    ensures Before(Keep(s, keep), x, y) <==> Before(s, x, y)
  {
    if s != [] {
      BeforeTail(s, x, y);
      KeepElems(s[1..], keep);
      KeepOrder(s[1..], keep, x, y);
      if s[0] in keep {
        BeforeTail(Keep(s, keep), x, y);
      }
    }
  }

  /** New elements stand in the order of their first occurrences. */
  lemma {:induction false} FirstNewOrder<T>(s: seq<T>, known: set<T>, x: T, y: T)
    requires x in s && y in s && x !in known && y !in known
    ensures Before(FirstNew(s, known), x, y) <==> FirstAt(s, x) < FirstAt(s, y)
  {
    var t, more := s[1..], known + {s[0]};
    if s[0] in known {
      FirstNewOrder(t, known, x, y);
    } else {
      BeforeTail(FirstNew(s, known), x, y);
      FirstNewElems(t, more);
      if x != s[0] && y != s[0] {
        FirstNewOrder(t, more, x, y);
      } else {
        NotBefore(FirstNew(t, more), x, y);
      }
    }
  }

  lemma NotBefore<T>(s: seq<T>, x: T, y: T)
    requires x !in s || y !in s
    ensures !Before(s, x, y)
  {
  }

  lemma {:induction false} FirstNewAppend<T>(s: seq<T>, x: T, known: set<T>)
    ensures FirstNew(s + [x], known) == FirstNew(s, known) + (if x in known || x in s then [] else [x])
  {
    if s == [] {
      assert (s + [x])[1..] == [];
    } else {
      assert (s + [x])[1..] == s[1..] + [x];
      FirstNewAppend(s[1..], x, known);
      FirstNewAppend(s[1..], x, known + {s[0]});
    }
  }

  /** Appending an element that is not there keeps a sequence free of duplicates. */
  lemma NoDupAppend<T>(s: seq<T>, t: seq<T>)
    requires NoDup(s) && NoDup(t) && forall x <- t :: x !in s
    ensures NoDup(s + t)
  {
    forall i, j | 0 <= i < j < |s + t| ensures (s + t)[i] != (s + t)[j] {
      if i < |s| <= j {
        assert t[j - |s|] in t && s[i] in s;
      }
    }
  }
}
