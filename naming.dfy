/**
 * Fresh-name de-duplication as the strategies and the table loader do it: a name already in
 * use gets the first free suffix `_1`, `_2`, ... appended to its base, and the chosen name is
 * then added to the set of used names.
 */
module Naming {
  import opened Text

  /** The k-th candidate for `base`: the base itself, then `base_1`, `base_2`, ... */
  function Candidate(base: string, k: nat): string {
    if k == 0 then base else base + "_" + NatStr(k)
  }

  /** Different suffix counters give different names. */
  lemma CandidateInjective(base: string, a: nat, b: nat)
    requires Candidate(base, a) == Candidate(base, b)
    ensures a == b
  {
    if a != 0 && b != 0 {
      var s := Candidate(base, a);
      assert NatStr(a) == s[|base| + 1..] == NatStr(b);
      NatStrInjective(a, b);
    }
  }

  /** The candidates tried before the k-th. */
  function Tried(base: string, k: nat): set<string> {
    set j | 0 <= j < k :: Candidate(base, j)
  }

  lemma {:induction false} TriedCard(base: string, k: nat)
    ensures |Tried(base, k)| == k
  {
    if k > 0 {
      TriedCard(base, k - 1);
      TriedStep(base, k - 1);
      NextCandidateNew(base, k - 1);
    }
  }

  lemma TriedStep(base: string, k: nat)
    ensures Tried(base, k + 1) == Tried(base, k) + {Candidate(base, k)}
  {
  }

  /** The k-th candidate is none of the earlier ones. */
  lemma NextCandidateNew(base: string, k: nat)
    ensures Candidate(base, k) !in Tried(base, k)
  {
    if Candidate(base, k) in Tried(base, k) {
      var j :| 0 <= j < k && Candidate(base, j) == Candidate(base, k);
      CandidateInjective(base, j, k);
      assert false;
    }
  }

  /** While the first k candidates are all used, there are at least k used names. */
  lemma TriedBound(base: string, used: set<string>, k: nat)
    requires forall j :: 0 <= j < k ==> Candidate(base, j) in used
    ensures k <= |used|
  {
    TriedCard(base, k);
    assert Tried(base, k) <= used;
    SubsetCard(Tried(base, k), used);
  }

  lemma {:induction false} SubsetCard<T>(a: set<T>, b: set<T>)
    requires a <= b
    ensures |a| <= |b|
    decreases |a|
  {
    if a != {} {
      var x :| x in a;
      SubsetCard(a - {x}, b - {x});
    }
  }

  /** The index of the first unused candidate, searching from k on. */
  function FreshIndex(base: string, used: set<string>, k: nat): (i: nat)
    requires forall j :: 0 <= j < k ==> Candidate(base, j) in used
    ensures k <= i && Candidate(base, i) !in used
    ensures forall j :: 0 <= j < i ==> Candidate(base, j) in used
    decreases |used| - k
  {
    if Candidate(base, k) !in used then k
    else
      TriedBound(base, used, k + 1);
      FreshIndex(base, used, k + 1)
  }

  /** The name the de-duplication loop settles on for `base`. */
  function FreshName(base: string, used: set<string>): (name: string)
    ensures name !in used
    ensures base !in used ==> name == base
  {
    Candidate(base, FreshIndex(base, used, 0))
  }

  /** A fresh name is the base or the base with a `_<n>` suffix, n >= 1. */
  lemma FreshNameShape(base: string, used: set<string>)
    ensures var name := FreshName(base, used);
      name == base || exists n: nat :: n >= 1 && name == base + "_" + NatStr(n)
  {
    var i := FreshIndex(base, used, 0);
    if i != 0 {
      assert FreshName(base, used) == base + "_" + NatStr(i);
    }
  }

  /** The loop `name := base; counter := 1; while used.has(name) { name := base_counter++ }`. */
  method PickFresh(base: string, used: set<string>) returns (name: string)
    ensures name == FreshName(base, used)
  {
    name := base;
    var counter: nat := 1;
    while name in used
      invariant name == Candidate(base, counter - 1)
      invariant forall j :: 0 <= j < counter - 1 ==> Candidate(base, j) in used
      decreases |used| - counter
    {
      TriedBound(base, used, counter);
      name := base + "_" + NatStr(counter);
      counter := counter + 1;
    }
    FreshIndexUnique(base, used, counter - 1);
  }

  /** Any unused candidate preceded only by used ones is the one FreshIndex finds. */
  lemma FreshIndexUnique(base: string, used: set<string>, i: nat)
    requires Candidate(base, i) !in used
    requires forall j :: 0 <= j < i ==> Candidate(base, j) in used
    ensures FreshIndex(base, used, 0) == i
  {
  }

  // ---------------------------------------------------------------------------------------
  // De-duplicating a whole list

  /** The names chosen, left to right, for `bases` when `used` is already taken. */
  function DedupFrom(bases: seq<string>, used: set<string>): (names: seq<string>)
    ensures |names| == |bases|
  {
    if bases == [] then []
    else
      var n := FreshName(bases[0], used);
      var rest := DedupFrom(bases[1..], used + {n});
      [n] + rest
  }

  /** No chosen name was in use before, and no two chosen names are equal. */
  lemma {:induction false} DedupFromFresh(bases: seq<string>, used: set<string>)
    ensures forall i :: 0 <= i < |bases| ==> DedupFrom(bases, used)[i] !in used
    ensures forall i, j :: 0 <= i < j < |bases| ==> DedupFrom(bases, used)[i] != DedupFrom(bases, used)[j]
  {
    if bases != [] {
      var n := FreshName(bases[0], used);
      var rest := DedupFrom(bases[1..], used + {n});
      DedupFromFresh(bases[1..], used + {n});
      assert DedupFrom(bases, used) == [n] + rest;
    }
  }

  /** Renaming a whole list: every name is given the first free candidate of its base. */
  function DedupNames(bases: seq<string>): seq<string> {
    DedupFrom(bases, {})
  }

  /** The loop over a list: a set of used names, one PickFresh per entry. */
  method DedupLoop(bases: seq<string>) returns (names: seq<string>)
    ensures names == DedupNames(bases)
  {
    names := [];
    var used: set<string> := {};
    for i := 0 to |bases|
      invariant names + DedupFrom(bases[i..], used) == DedupNames(bases)
    {
      var name := PickFresh(bases[i], used);
      DedupAdvance(names, bases, i, used, DedupNames(bases));
      names := names + [name];
      used := used + {name};
    }
    assert bases[|bases|..] == [];
  }

  /** One step of a left-to-right renaming loop: the next name is the fresh name of the next base. */
  lemma DedupAdvance(names: seq<string>, bases: seq<string>, i: nat, used: set<string>, all: seq<string>)
    requires i < |bases| && names + DedupFrom(bases[i..], used) == all
    ensures var n := FreshName(bases[i], used);
      (names + [n]) + DedupFrom(bases[i + 1..], used + {n}) == all
  {
    var n := FreshName(bases[i], used);
    var later := DedupFrom(bases[i + 1..], used + {n});
    assert bases[i..][1..] == bases[i + 1..];
    assert DedupFrom(bases[i..], used) == [n] + later;
    assert (names + [n]) + later == names + ([n] + later);
  }

  /** Every chosen name is one of the candidates of its base. */
  lemma {:induction false} DedupFromCandidate(bases: seq<string>, used: set<string>, i: nat)
    requires i < |bases|
    ensures exists n: nat :: DedupFrom(bases, used)[i] == Candidate(bases[i], n)
  {
    var n := FreshName(bases[0], used);
    if i == 0 {
      assert DedupFrom(bases, used)[0] == Candidate(bases[0], FreshIndex(bases[0], used, 0));
    } else {
      DedupFromCandidate(bases[1..], used + {n}, i - 1);
      assert DedupFrom(bases, used)[i] == DedupFrom(bases[1..], used + {n})[i - 1];
    }
  }

  /** The renamed list is as long as the input and free of duplicates. */
  lemma DedupNamesDistinct(bases: seq<string>)
    ensures |DedupNames(bases)| == |bases|
    ensures forall i, j :: 0 <= i < j < |bases| ==> DedupNames(bases)[i] != DedupNames(bases)[j]
  {
    DedupFromFresh(bases, {});
  }

  lemma FreshKeepsBase(base: string, used: set<string>)
    ensures FreshName(base, used) == base <==> base !in used
  {
  }

  /** An entry keeps its name exactly when neither `used` nor an earlier result holds it. */
  lemma {:induction false} DedupFromKeeps(bases: seq<string>, used: set<string>, i: nat)
    requires i < |bases|
    ensures var names := DedupFrom(bases, used);
      names[i] == bases[i] <==> bases[i] !in used && bases[i] !in names[..i]
  {
    var n := FreshName(bases[0], used);
    FreshKeepsBase(bases[0], used);
    if i > 0 {
      DedupFromKeeps(bases[1..], used + {n}, i - 1);
      var names := DedupFrom(bases, used);
      assert names[..i] == [n] + names[1..][..i - 1];
    }
  }

  /** The first occurrence of a name keeps it; an entry is renamed only on a clash with an earlier result. */
  lemma DedupNamesKeeps(bases: seq<string>, i: nat)
    requires i < |bases|
    ensures var names := DedupNames(bases);
      names[i] == bases[i] <==> bases[i] !in names[..i]
  {
    DedupFromKeeps(bases, {}, i);
  }

  predicate AllAre(bases: seq<string>, b: string) {
    forall i :: 0 <= i < |bases| ==> bases[i] == b
  }

  /** Among the candidates of `b`, exactly the first m are in `used`. */
  ghost predicate TakenUpTo(used: set<string>, b: string, m: nat) {
    forall j: nat :: Candidate(b, j) in used <==> j < m
  }

  /** After the first m candidates are taken, the next name chosen is the m-th. */
  lemma FreshAfterTaken(used: set<string>, b: string, m: nat)
    requires TakenUpTo(used, b, m)
    ensures FreshName(b, used) == Candidate(b, m)
    ensures TakenUpTo(used + {Candidate(b, m)}, b, m + 1)
  {
    FreshIndexUnique(b, used, m);
    forall j: nat
      ensures Candidate(b, j) in used + {Candidate(b, m)} <==> j < m + 1
    {
      if Candidate(b, j) == Candidate(b, m) {
        CandidateInjective(b, j, m);
      }
    }
  }

  lemma {:induction false} DedupRepeated(bases: seq<string>, b: string, used: set<string>, m: nat)
    requires AllAre(bases, b) && TakenUpTo(used, b, m)
    ensures forall i :: 0 <= i < |bases| ==> DedupFrom(bases, used)[i] == Candidate(b, m + i)
  {
    if bases != [] {
      FreshAfterTaken(used, b, m);
      var used' := used + {Candidate(b, m)};
      var names := DedupFrom(bases, used);
      var rest := DedupFrom(bases[1..], used');
      assert names == [Candidate(b, m)] + rest;
      DedupRepeated(bases[1..], b, used', m + 1);
      forall i | 0 <= i < |bases|
        ensures names[i] == Candidate(b, m + i)
      {
        if i > 0 {
          assert names[i] == rest[i - 1] == Candidate(b, (m + 1) + (i - 1));
        }
      }
    }
  }

  /** Repeats of one name become `b`, `b_1`, `b_2`, ...: later clashes count up from 1. */
  lemma DedupNamesRepeated(bases: seq<string>, b: string)
    requires AllAre(bases, b)
    ensures forall i :: 0 <= i < |bases| ==> DedupNames(bases)[i] == Candidate(b, i)
  {
    DedupRepeated(bases, b, {}, 0);
  }
}
