/**
 * The orders the table is sorted by: Python's comparison of strings
 * (code point by code point, a proper prefix first) and its lexicographic
 * extension to the multi-column keys of `sort_values` and `groupby`.
 */
module Order {

  /** `a < b` on Python strings. */
  predicate StrLt(a: string, b: string)
    decreases |a|
  {
    if a == [] then b != []
    else if b == [] then false
    else if a[0] == b[0] then StrLt(a[1..], b[1..])
    else a[0] < b[0]
  }

  lemma {:induction false} StrLtIrreflexive(a: string)
    ensures !StrLt(a, a)
    decreases |a|
  {
    if a != [] {
      StrLtIrreflexive(a[1..]);
    }
  }

  lemma {:induction false} StrLtTransitive(a: string, b: string, c: string)
    requires StrLt(a, b) && StrLt(b, c)
    ensures StrLt(a, c)
    decreases |a|
  {
    if a != [] && b != [] && c != [] && a[0] == b[0] == c[0] {
      StrLtTransitive(a[1..], b[1..], c[1..]);
    }
  }

  lemma {:induction false} StrLtTrichotomy(a: string, b: string)
    ensures a == b || StrLt(a, b) || StrLt(b, a)
    decreases |a|
  {
    if a != [] && b != [] && a[0] == b[0] {
      StrLtTrichotomy(a[1..], b[1..]);
      if a[1..] == b[1..] {
        assert a == [a[0]] + a[1..] && b == [b[0]] + b[1..];
      }
    }
  }

  /** A multi-column key: the tuple of column values compared left to right. */
  type Key = seq<string>

  predicate KeyLt(a: Key, b: Key)
    decreases |a|
  {
    if a == [] then b != []
    else if b == [] then false
    else if a[0] == b[0] then KeyLt(a[1..], b[1..])
    else StrLt(a[0], b[0])
  }

  lemma {:induction false} KeyLtIrreflexive(a: Key)
    ensures !KeyLt(a, a)
    decreases |a|
  {
    if a != [] {
      KeyLtIrreflexive(a[1..]);
    }
  }

  lemma {:induction false} KeyLtTransitive(a: Key, b: Key, c: Key)
    requires KeyLt(a, b) && KeyLt(b, c)
    ensures KeyLt(a, c)
    decreases |a|
  {
    if a != [] && b != [] && c != [] {
      if a[0] == b[0] == c[0] {
        KeyLtTransitive(a[1..], b[1..], c[1..]);
      } else if a[0] != b[0] && b[0] != c[0] {
        StrLtTransitive(a[0], b[0], c[0]);
        if a[0] == c[0] {
          StrLtIrreflexive(a[0]);
        }
      }
    }
  }

  lemma {:induction false} KeyLtTrichotomy(a: Key, b: Key)
    ensures a == b || KeyLt(a, b) || KeyLt(b, a)
    decreases |a|
  {
    if a != [] && b != [] {
      if a[0] == b[0] {
        KeyLtTrichotomy(a[1..], b[1..]);
        if a[1..] == b[1..] {
          assert a == [a[0]] + a[1..] && b == [b[0]] + b[1..];
        }
      } else {
        StrLtTrichotomy(a[0], b[0]);
      }
    }
  }

  /** `a <= b` on keys. */
  predicate KeyLe(a: Key, b: Key)
  {
    !KeyLt(b, a)
  }

  /** KeyLe is a total order: total, transitive and antisymmetric. */
  lemma KeyLeTotalOrder(a: Key, b: Key, c: Key)
    ensures KeyLe(a, b) || KeyLe(b, a)
    ensures KeyLe(a, b) && KeyLe(b, c) ==> KeyLe(a, c)
    ensures KeyLe(a, b) && KeyLe(b, a) ==> a == b
  {
    KeyLtTrichotomy(a, b);
    KeyLtTrichotomy(b, c);
    KeyLtTrichotomy(a, c);
    if KeyLt(a, b) && KeyLt(b, a) {
      KeyLtTransitive(a, b, a);
      KeyLtIrreflexive(a);
    }
    if KeyLe(a, b) && KeyLe(b, c) && KeyLt(c, a) {
      if a == b {
        KeyLtTransitive(b, c, b);
        KeyLtIrreflexive(b);
      } else {
        KeyLtTransitive(c, a, b);
        KeyLtTransitive(b, c, b);
        KeyLtIrreflexive(b);
      }
    }
  }
}
