/** The classification values of the engine and its two merge operators. */
module Lattice {

  /** What is known about a mail domain, a mail server or an address. */
  datatype Classification = UNKNOWN | DISPOSABLE | ALIAS | REGULAR | DEAD | MIXED

  /** Why a domain received its classification. */
  datatype Heuristics = NONE | MX | IP | NO_FALLBACK_MX | NO_RESOLVABLE_MX

  /** The values of `s` that carry evidence: all but UNKNOWN. */
  function Known(s: set<Classification>): set<Classification>
  {
    s - {UNKNOWN}
  }

  /** The value of folding `Combine` over all of `s`, in any order, starting from UNKNOWN:
      UNKNOWN when nothing is known, the known value when all known values agree, and
      MIXED as soon as two known values differ. */
  ghost function CombineAll(s: set<Classification>): Classification
  {
    var known := Known(s);
    if known == {} then UNKNOWN
    else
      var c :| c in known;
      if known == {c} then c else MIXED
  }

  /** The value of folding `AnyDisposable` over all of `s`: as `CombineAll`, except that one
      DISPOSABLE value decides the outcome. */
  ghost function AnyDisposableAll(s: set<Classification>): Classification
  {
    if DISPOSABLE in s then DISPOSABLE else CombineAll(s)
  }

  /** The known values among two operands. */
  lemma KnownPair(x: Classification, y: Classification)
    ensures Known({x, y}) == if x == UNKNOWN then (if y == UNKNOWN then {} else {y})
                             else if y == UNKNOWN || x == y then {x} else {x, y}
  {
  }

  /** Merges classifications from authoritative sources; no value is privileged. */
  function Combine(x: Classification, y: Classification): (r: Classification)
    ensures r == CombineAll({x, y})
  {
    KnownPair(x, y);
    if y == UNKNOWN then x
    else if x == UNKNOWN then y
    else if x == y then x
    else MIXED
  }

  /** Merges evidence when guessing: a DISPOSABLE value wins against any other known value. */
  function AnyDisposable(x: Classification, y: Classification): (r: Classification)
    ensures r == AnyDisposableAll({x, y})
  {
    KnownPair(x, y);
    if y == UNKNOWN then x
    else if x == UNKNOWN then y
    else if x == y then x
    else if x == DISPOSABLE then x
    else if y == DISPOSABLE then y
    else MIXED
  }

  /** The laws of `Combine`: UNKNOWN is a two-sided identity, equal operands give themselves,
      two distinct known operands give MIXED, and the operator is commutative and associative,
      with MIXED absorbing. */
  lemma CombineLaws(x: Classification, y: Classification, z: Classification)
    ensures Combine(x, UNKNOWN) == x && Combine(UNKNOWN, x) == x
    ensures Combine(x, x) == x
    ensures x != UNKNOWN && y != UNKNOWN && x != y ==> Combine(x, y) == MIXED
    ensures Combine(x, y) == Combine(y, x)
    ensures Combine(Combine(x, y), z) == Combine(x, Combine(y, z))
    ensures Combine(MIXED, x) == MIXED
  {
  }

  /** Combining the same value a second time changes nothing. */
  lemma CombineRepeat(x: Classification, k: Classification)
    ensures Combine(Combine(x, k), k) == Combine(x, k)
  {
  }

  /** The laws of `AnyDisposable`: the same identity, idempotence, commutativity and
      associativity as `Combine`; between two distinct known operands DISPOSABLE wins, even
      against MIXED, and otherwise the result is MIXED. */
  lemma AnyDisposableLaws(x: Classification, y: Classification, z: Classification)
    ensures AnyDisposable(x, UNKNOWN) == x && AnyDisposable(UNKNOWN, x) == x
    ensures AnyDisposable(x, x) == x
    ensures x != UNKNOWN && x != DISPOSABLE ==> AnyDisposable(x, DISPOSABLE) == DISPOSABLE
    ensures x != UNKNOWN && y != UNKNOWN && x != y && x != DISPOSABLE && y != DISPOSABLE
            ==> AnyDisposable(x, y) == MIXED
    ensures AnyDisposable(x, y) == AnyDisposable(y, x)
    ensures AnyDisposable(AnyDisposable(x, y), z) == AnyDisposable(x, AnyDisposable(y, z))
  {
  }

  /** `CombineAll` is UNKNOWN exactly when nothing is known. */
  lemma CombineAllUnknown(s: set<Classification>)
    ensures CombineAll(s) == UNKNOWN <==> Known(s) == {}
  {
    var known := Known(s);
    if known != {} {
      var c :| c in known;
      if known == {c} {
        assert c != UNKNOWN;
      }
    }
  }

  /** When every known value of `s` is `k`, and `k` occurs, `CombineAll` gives `k`. */
  lemma CombineAllUniform(s: set<Classification>, k: Classification)
    requires k != UNKNOWN && k in s
    requires forall c :: c in s ==> c == UNKNOWN || c == k
    ensures CombineAll(s) == k
  {
    assert Known(s) == {k};
  }

  /** Two different known values make `CombineAll` MIXED. */
  lemma CombineAllConflict(s: set<Classification>, a: Classification, b: Classification)
    requires a in s && b in s && a != UNKNOWN && b != UNKNOWN && a != b
    ensures CombineAll(s) == MIXED
  {
    var known := Known(s);
    assert a in known && b in known;
    var c :| c in known;
    assert known != {c};
  }

  /** Adding one value to the folded set is one more step of the `Combine` fold. This is what
      makes every loop that folds with `Combine` compute `CombineAll`, whatever the order. */
  lemma CombineAllInsert(s: set<Classification>, x: Classification)
    ensures Combine(CombineAll(s), x) == CombineAll(s + {x})
  {
    var known := Known(s);
    var known' := Known(s + {x});
    if x == UNKNOWN {
      assert known' == known;
    } else if known == {} {
      assert known' == {x};
    } else {
      var c :| c in known;
      if known == {c} {
        if x == c {
          assert known' == {c};
        } else {
          assert known' == {c, x};
          CombineAllConflict(s + {x}, c, x);
        }
      } else {
        var d :| d in known && d != c;
        CombineAllConflict(s + {x}, c, d);
      }
    }
  }

  /** Adding one value to the folded set is one more step of the `AnyDisposable` fold. */
  lemma AnyDisposableAllInsert(s: set<Classification>, x: Classification)
    ensures AnyDisposable(AnyDisposableAll(s), x) == AnyDisposableAll(s + {x})
  {
    if DISPOSABLE !in s && x != DISPOSABLE {
      CombineAllInsert(s, x);
      CombineAllUnknown(s);
    } else if DISPOSABLE in s {
      assert AnyDisposableAll(s) == DISPOSABLE;
    } else {
      CombineAllUnknown(s);
    }
  }
}
