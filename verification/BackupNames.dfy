/** The search for a backup name that nothing in the directory uses, in any of its variants. */
module BackupNames {
  import opened Rows

  function Digits(n: nat): string {
    if n < 10 then [(n + '0' as nat) as char] else Digits(n / 10) + [(n % 10 + '0' as nat) as char]
  }

  lemma {:induction false} DigitsApart(m: nat, n: nat)
    requires Digits(m) == Digits(n)
    ensures m == n
    decreases m
  {
    var a, b := Digits(m), Digits(n);
    if m < 10 {
    } else {
      assert a[..|a| - 1] == Digits(m / 10) && b[..|b| - 1] == Digits(n / 10);
      assert a[|a| - 1] == b[|b| - 1];
      DigitsApart(m / 10, n / 10);
    }
  }

  /** The `i`-th candidate: the plain tag first, then numbered ones. */
  function Candidate(base: string, stamp: string, i: nat): string {
    base + ".pre-migrate-" + stamp + (if i == 0 then "" else "." + Digits(i))
  }

  lemma CandidatesApart(base: string, stamp: string, suffix: string, i: nat, j: nat)
    requires Candidate(base, stamp, i) + suffix == Candidate(base, stamp, j) + suffix
    ensures i == j
  {
    var head := base + ".pre-migrate-" + stamp;
    var a, b := Candidate(base, stamp, i), Candidate(base, stamp, j);
    assert a == (a + suffix)[..|a|] && |a| == |b| && b == (b + suffix)[..|b|];
    assert a[|head|..] == (if i == 0 then "" else "." + Digits(i));
    assert b[|head|..] == (if j == 0 then "" else "." + Digits(j));
    if i != 0 && j != 0 {
      assert ("." + Digits(i))[1..] == Digits(i) && ("." + Digits(j))[1..] == Digits(j);
      DigitsApart(i, j);
    }
  }

  predicate Free(taken: set<string>, candidate: string, suffixes: seq<string>) {
    forall s :: 0 <= s < |suffixes| ==> candidate + suffixes[s] !in taken
  }

  /** Ways a name can block a candidate: the name, and the variant it equals. */
  function Pairs(taken: set<string>, variants: nat): set<(string, nat)> {
    set name, s | name in taken && 0 <= s < variants :: (name, s)
  }

  /** Counts up to the first candidate none of whose variants exists; it ends because the directory is finite. */
  method FreeBackupPath(taken: set<string>, base: string, stamp: string, suffixes: seq<string>) returns (path: string, i: nat)
    ensures path == Candidate(base, stamp, i) && Free(taken, path, suffixes)
    ensures forall j :: 0 <= j < i ==> !Free(taken, Candidate(base, stamp, j), suffixes)
  {
    i := 0;
    ghost var all := Pairs(taken, |suffixes|);
    ghost var used: set<(string, nat)> := {};
    path := Candidate(base, stamp, 0);
    while !Free(taken, path, suffixes)
      invariant path == Candidate(base, stamp, i)
      invariant forall j :: 0 <= j < i ==> !Free(taken, Candidate(base, stamp, j), suffixes)
      invariant used <= all
      invariant forall u :: u in used ==> u.1 < |suffixes| && exists j :: 0 <= j < i && u.0 == Candidate(base, stamp, j) + suffixes[u.1]
      decreases |all| - |used|
    {
      ghost var s :| 0 <= s < |suffixes| && path + suffixes[s] in taken;
      ghost var pair := (path + suffixes[s], s);
      NewPair(base, stamp, suffixes, i, s, used);
      assert pair in all && pair !in used;
      Grows(used, pair, all);
      used := used + {pair};
      i := i + 1;
      path := Candidate(base, stamp, i);
    }
  }

  lemma NewPair(base: string, stamp: string, suffixes: seq<string>, i: nat, s: nat, used: set<(string, nat)>)
    requires s < |suffixes|
    requires forall u :: u in used ==> u.1 < |suffixes| && exists j :: 0 <= j < i && u.0 == Candidate(base, stamp, j) + suffixes[u.1]
    ensures (Candidate(base, stamp, i) + suffixes[s], s) !in used
  {
    var pair := (Candidate(base, stamp, i) + suffixes[s], s);
    forall j | 0 <= j < i ensures pair.0 != Candidate(base, stamp, j) + suffixes[s] {
      if pair.0 == Candidate(base, stamp, j) + suffixes[s] { CandidatesApart(base, stamp, suffixes[s], i, j); }
    }
  }

  lemma Grows<T>(used: set<T>, x: T, all: set<T>)
    requires used <= all && x in all && x !in used
    ensures |used + {x}| == |used| + 1 && |used + {x}| <= |all|
  {
    assert used + {x} <= all;
    assert all == (used + {x}) + (all - (used + {x}));
  }
}
