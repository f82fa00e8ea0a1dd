/**
 * The seed runner of src/scripts/seed.ts: which files of the seeders
 * directory are considered, in which order, and which of them are run or
 * skipped.
 *
 * Reading the directory, importing a module and the environment variable
 * are I/O: the directory listing, a `load` function from file name to what
 * the imported module exports, and the value of NODE_ENV are parameters.
 * Executing a seed is left out; the model produces the run plan.
 */
module SeedRunner {
  import opened Wrappers

  const PRODUCTION: string := "production"
  const DEFAULT_ENV: string := "development"

  /** `shouldRunSeed(skipProd, env = "development")`. */
  function ShouldRunSeed(skipProd: bool, env: Option<string>): (r: bool)
    ensures !r <==> skipProd && env == Some(PRODUCTION)
  {
    var e := env.GetOr(DEFAULT_ENV);
    if skipProd && e == PRODUCTION then false else true
  }

  /** `s.endsWith(suffix)`. */
  predicate EndsWith(s: string, suffix: string) {
    |suffix| <= |s| && s[|s| - |suffix|..] == suffix
  }

  /** The directory filter: `f.endsWith(".ts") || f.endsWith(".js")`. */
  predicate IsSeedFile(f: string) {
    EndsWith(f, ".ts") || EndsWith(f, ".js")
  }

  /** `files.filter(IsSeedFile)`: keeps the qualifying names, in order, with their multiplicities. */
  function FilterSeedFiles(files: seq<string>): (r: seq<string>)
    ensures forall f :: f in r <==> f in files && IsSeedFile(f)
    ensures forall f | IsSeedFile(f) :: multiset(r)[f] == multiset(files)[f]
    ensures forall i | 0 <= i < |r| :: IsSeedFile(r[i])
  {
    if |files| == 0 then []
    else
      assert files == [files[0]] + files[1..];
      var rest := FilterSeedFiles(files[1..]);
      if IsSeedFile(files[0]) then [files[0]] + rest else rest
  }

  /**
   * The order of the default `Array.prototype.sort`: strings compared
   * character by character, a proper prefix first.
   */
  predicate LexLe(a: string, b: string)
    decreases |a|
  {
    |a| == 0 || (|b| > 0 && (a[0] < b[0] || (a[0] == b[0] && LexLe(a[1..], b[1..]))))
  }

  lemma {:induction false} LexLeReflexive(a: string)
    ensures LexLe(a, a)
    decreases |a|
  {
    if |a| > 0 {
      LexLeReflexive(a[1..]);
    }
  }

  lemma {:induction false} LexLeTotal(a: string, b: string)
    ensures LexLe(a, b) || LexLe(b, a)
    decreases |a|
  {
    if |a| > 0 && |b| > 0 && a[0] == b[0] {
      LexLeTotal(a[1..], b[1..]);
    }
  }

  lemma {:induction false} LexLeTransitive(a: string, b: string, c: string)
    requires LexLe(a, b) && LexLe(b, c)
    ensures LexLe(a, c)
    decreases |a|
  {
    if |a| > 0 && a[0] == b[0] && b[0] == c[0] {
      LexLeTransitive(a[1..], b[1..], c[1..]);
    }
  }

  lemma {:induction false} LexLeAntisymmetric(a: string, b: string)
    requires LexLe(a, b) && LexLe(b, a)
    ensures a == b
    decreases |a|
  {
    if |a| > 0 {
      LexLeAntisymmetric(a[1..], b[1..]);
      assert a == [a[0]] + a[1..] && b == [b[0]] + b[1..];
    }
  }

  predicate Sorted(s: seq<string>) {
    forall i, j | 0 <= i < j < |s| :: LexLe(s[i], s[j])
  }

  /** Inserts `x` before the first element it does not follow. */
  function Insert(x: string, s: seq<string>): (r: seq<string>)
    requires Sorted(s)
    ensures Sorted(r)
    ensures multiset(r) == multiset(s) + multiset{x}
  {
    if |s| == 0 then [x]
    else if LexLe(x, s[0]) then
      assert forall j | 0 < j < |s| :: LexLe(x, s[j]) by {
        forall j | 0 < j < |s| ensures LexLe(x, s[j]) {
          LexLeTransitive(x, s[0], s[j]);
        }
      }
      ConsSorted(x, s);
      [x] + s
    else
      LexLeTotal(x, s[0]);
      var rest := Insert(x, s[1..]);
      HeadBelowRest(s[0], s[1..], x, rest);
      ConsSorted(s[0], rest);
      assert s == [s[0]] + s[1..];
      [s[0]] + rest
  }

  /** A name no later than every name of a sorted sequence can go in front of it. */
  lemma ConsSorted(h: string, s: seq<string>)
    requires Sorted(s) && forall k | 0 <= k < |s| :: LexLe(h, s[k])
    ensures Sorted([h] + s)
  {
    var r := [h] + s;
    forall i, j | 0 <= i < j < |r| ensures LexLe(r[i], r[j]) {
      assert r[j] == s[j - 1];
      if i > 0 { assert r[i] == s[i - 1]; }
    }
  }

  /** If `h` precedes `x` and every name of `tail`, it precedes every name of a rearrangement of both. */
  lemma HeadBelowRest(h: string, tail: seq<string>, x: string, rest: seq<string>)
    requires LexLe(h, x) && forall k | 0 <= k < |tail| :: LexLe(h, tail[k])
    requires multiset(rest) == multiset(tail) + multiset{x}
    ensures forall k | 0 <= k < |rest| :: LexLe(h, rest[k])
  {
    forall k | 0 <= k < |rest| ensures LexLe(h, rest[k]) {
      assert rest[k] in multiset(tail) + multiset{x};
      if rest[k] != x {
        assert rest[k] in tail;
      }
    }
  }

  /** `.sort()`: the same names, in ascending order. */
  function Sort(s: seq<string>): (r: seq<string>)
    ensures Sorted(r)
    ensures multiset(r) == multiset(s)
  {
    if |s| == 0 then []
    else
      assert s == [s[0]] + s[1..];
      Insert(s[0], Sort(s[1..]))
  }

  /** Two sorted arrangements of the same names are the same sequence. */
  lemma {:induction false} SortedUnique(a: seq<string>, b: seq<string>)
    requires Sorted(a) && Sorted(b) && multiset(a) == multiset(b)
    ensures a == b
    decreases |a|
  {
    if |a| > 0 {
      SameHead(a, b);
      DropHead(a);
      DropHead(b);
      SortedUnique(a[1..], b[1..]);
      assert a == [a[0]] + a[1..] && b == [b[0]] + b[1..];
    } else {
      assert |b| == |multiset(b)| == 0;
    }
  }

  /** Two sorted arrangements of the same names start with the same name. */
  lemma SameHead(a: seq<string>, b: seq<string>)
    requires Sorted(a) && Sorted(b) && multiset(a) == multiset(b) && |a| > 0
    ensures |b| > 0 && a[0] == b[0]
  {
    assert a[0] in multiset(b);
    var i :| 0 <= i < |b| && b[i] == a[0];
    assert b[0] in multiset(a);
    var j :| 0 <= j < |a| && a[j] == b[0];
    assert LexLe(b[0], a[0]) by {
      if i > 0 { assert LexLe(b[0], b[i]); } else { LexLeReflexive(a[0]); }
    }
    assert LexLe(a[0], b[0]) by {
      if j > 0 { assert LexLe(a[0], a[j]); } else { LexLeReflexive(b[0]); }
    }
    LexLeAntisymmetric(a[0], b[0]);
  }

  /** Removing the first name keeps the rest sorted and removes one copy of that name. */
  lemma DropHead(a: seq<string>)
    requires Sorted(a) && |a| > 0
    ensures Sorted(a[1..])
    ensures multiset(a[1..]) == multiset(a) - multiset{a[0]}
  {
    assert a == [a[0]] + a[1..];
    assert multiset(a) == multiset{a[0]} + multiset(a[1..]);
  }

  /** What an imported seeder module exports: a `seed` function or not, and `skipProd` if set. */
  datatype SeedModule = SeedModule(hasSeed: bool, skipProd: Option<bool>)

  /** One entry of the run: `[RUN]`, `[SKIP] (no seed export)` or `[SKIP] (skipProd = true, ...)`. */
  datatype Step = Run(file: string) | SkipNoSeed(file: string) | SkipProd(file: string)

  /** The decision the loop body takes for one file. */
  function Decide(file: string, m: SeedModule, env: Option<string>): (s: Step)
    ensures s.file == file
    ensures s.Run? <==> m.hasSeed && !(m.skipProd == Some(true) && env == Some(PRODUCTION))
    ensures s.SkipNoSeed? <==> !m.hasSeed
  {
    if !m.hasSeed then SkipNoSeed(file)
    else if !ShouldRunSeed(m.skipProd.GetOr(false), env) then SkipProd(file)
    else Run(file)
  }

  /** The file names of a run, in order. */
  function StepFiles(steps: seq<Step>): (r: seq<string>)
    ensures |r| == |steps|
    ensures forall i | 0 <= i < |steps| :: r[i] == steps[i].file
  {
    seq(|steps|, i requires 0 <= i < |steps| => steps[i].file)
  }

  /**
   * The plan of `main`: the considered files, each exactly as often as it is
   * listed, in ascending order, each with the decision for its module.
   */
  function Plan(files: seq<string>, load: string -> SeedModule, env: Option<string>): (r: seq<Step>)
    ensures multiset(StepFiles(r)) == multiset(FilterSeedFiles(files))
    ensures Sorted(StepFiles(r))
    ensures forall i | 0 <= i < |r| :: r[i] == Decide(r[i].file, load(r[i].file), env)
  {
    var ordered := Sort(FilterSeedFiles(files));
    var r := seq(|ordered|, i requires 0 <= i < |ordered| => Decide(ordered[i], load(ordered[i]), env));
    assert StepFiles(r) == ordered;
    r
  }

  /** Exactly the listed names ending in ".ts" or ".js" appear in the plan. */
  lemma PlanConsidersSeedFiles(files: seq<string>, load: string -> SeedModule, env: Option<string>, f: string)
    ensures f in StepFiles(Plan(files, load, env)) <==> f in files && IsSeedFile(f)
  {
    var r := StepFiles(Plan(files, load, env));
    assert f in r <==> f in multiset(r);
  }

  /** The plan does not depend on the order of the directory listing. */
  lemma PlanIgnoresListingOrder(files1: seq<string>, files2: seq<string>, load: string -> SeedModule,
                                env: Option<string>)
    requires multiset(files1) == multiset(files2)
    ensures Plan(files1, load, env) == Plan(files2, load, env)
  {
    var a := FilterSeedFiles(files1);
    var b := FilterSeedFiles(files2);
    assert multiset(a) == multiset(b) by {
      forall f ensures multiset(a)[f] == multiset(b)[f] {
        if !IsSeedFile(f) {
          assert f !in a && f !in b;
        }
      }
    }
    SortedUnique(Sort(a), Sort(b));
  }

  /** A module that exports `seed` and no `skipProd` runs in every environment. */
  lemma NoSkipProdAlwaysRuns(file: string, env: Option<string>)
    ensures Decide(file, SeedModule(true, None), env) == Run(file)
  {
  }

  /** Outside production every module with a `seed` export runs, whatever its `skipProd`. */
  lemma OutsideProductionEverySeedRuns(file: string, skipProd: Option<bool>, env: Option<string>)
    requires env != Some(PRODUCTION)
    ensures Decide(file, SeedModule(true, skipProd), env) == Run(file)
  {
  }
}
