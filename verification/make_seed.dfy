/**
 * The pure helpers of src/scripts/make-seed.ts, which creates a new seeder
 * file: the name sanitiser `toSafeName`, the zero padding `pad`, the
 * timestamp prefix and the shape of the generated file name.
 *
 * The sanitiser is modelled on ASCII input: JavaScript's `trim`,
 * `toLowerCase` and `\s` also treat a few non-ASCII characters specially.
 * The clock and the file system are left out; the time is a parameter.
 */
module MakeSeed {
  import opened Wrappers
  import SeedRunner

  predicate IsAscii(s: string) {
    forall i | 0 <= i < |s| :: s[i] as int < 128
  }

  /** The ASCII characters of `\s` and of `trim`: tab, line feed, vertical tab, form feed, carriage return, space. */
  predicate IsSpace(c: char) {
    c == ' ' || c == '\t' || c == '\n' || c == '\r' || c as int == 11 || c as int == 12
  }

  predicate IsUpper(c: char) {
    'A' <= c <= 'Z'
  }

  /** `[a-z0-9_:-]`, the characters a safe name may contain. */
  predicate IsSafe(c: char) {
    'a' <= c <= 'z' || '0' <= c <= '9' || c == '_' || c == ':' || c == '-'
  }

  /** The safe characters other than the separator `_`: the ones that carry the name. */
  predicate IsSignificant(c: char) {
    IsSafe(c) && c != '_'
  }

  predicate NoSpace(s: string) {
    forall i | 0 <= i < |s| :: !IsSpace(s[i])
  }

  predicate AllSpace(s: string) {
    forall i | 0 <= i < |s| :: IsSpace(s[i])
  }

  predicate AllSafe(s: string) {
    forall i | 0 <= i < |s| :: IsSafe(s[i])
  }

  /** No two consecutive underscores. */
  predicate NoDoubleUnderscore(s: string) {
    forall i | 0 <= i < |s| - 1 :: !(s[i] == '_' && s[i + 1] == '_')
  }

  /** The significant characters of `s`, in order. */
  function Significant(s: string): (r: string)
    ensures forall c :: c in r <==> c in s && IsSignificant(c)
  {
    if |s| == 0 then []
    else if IsSignificant(s[0]) then [s[0]] + Significant(s[1..])
    else Significant(s[1..])
  }

  lemma {:induction false} SignificantConcat(a: string, b: string)
    ensures Significant(a + b) == Significant(a) + Significant(b)
    decreases |a|
  {
    if |a| > 0 {
      assert (a + b)[0] == a[0] && (a + b)[1..] == a[1..] + b;
      SignificantConcat(a[1..], b);
      if IsSignificant(a[0]) {
        assert Significant(a + b) == [a[0]] + Significant(a[1..] + b);
      }
    } else {
      assert a + b == b;
    }
  }

  /** Leading whitespace removed: what is left is a suffix, and only whitespace was dropped. */
  function TrimStart(s: string): (r: string)
    ensures |r| <= |s| && r == s[|s| - |r|..]
    ensures AllSpace(s[..|s| - |r|])
    ensures |r| > 0 ==> !IsSpace(r[0])
  {
    if |s| > 0 && IsSpace(s[0]) then TrimStart(s[1..]) else s
  }

  /** Trailing whitespace removed: what is left is a prefix, and only whitespace was dropped. */
  function TrimEnd(s: string): (r: string)
    ensures |r| <= |s| && r == s[..|r|]
    ensures AllSpace(s[|r|..])
    ensures |r| > 0 ==> !IsSpace(r[|r| - 1])
  {
    if |s| > 0 && IsSpace(s[|s| - 1]) then TrimEnd(s[..|s| - 1]) else s
  }

  /** `trim()`. */
  function Trim(s: string): (r: string)
    ensures |r| > 0 ==> !IsSpace(r[0]) && !IsSpace(r[|r| - 1])
  {
    TrimEnd(TrimStart(s))
  }

  function Lower(c: char): char {
    if IsUpper(c) then (c as int + 32) as char else c
  }

  /** `toLowerCase()` on ASCII. */
  function ToLower(s: string): (r: string)
    ensures |r| == |s|
    ensures forall i | 0 <= i < |s| :: r[i] == Lower(s[i])
  {
    seq(|s|, i requires 0 <= i < |s| => Lower(s[i]))
  }

  /**
   * `replace(/\s+/g, "_")`: a whitespace character followed by another one is
   * dropped, and the last one of a run becomes `_`.
   */
  function CollapseWhitespace(s: string): (r: string)
    ensures NoSpace(r)
    ensures Significant(r) == Significant(s)
    ensures NoSpace(s) ==> r == s
    ensures |s| == 1 && IsSpace(s[0]) ==> r == "_"
  {
    if |s| == 0 then []
    else
      assert s == [s[0]] + s[1..];
      SignificantConcat([s[0]], s[1..]);
      var rest := CollapseWhitespace(s[1..]);
      if IsSpace(s[0]) then
        if |s| > 1 && IsSpace(s[1]) then rest else "_" + rest
      else
        SignificantConcat([s[0]], rest);
        [s[0]] + rest
  }

  /** `replace(/[^a-z0-9_:-]/g, "")`: drops every unsafe character. */
  function KeepSafe(s: string): (r: string)
    ensures AllSafe(r)
    ensures Significant(r) == Significant(s)
    ensures AllSafe(s) ==> r == s
    ensures |s| == 1 && !IsSafe(s[0]) ==> r == []
  {
    if |s| == 0 then []
    else
      assert s == [s[0]] + s[1..];
      SignificantConcat([s[0]], s[1..]);
      var rest := KeepSafe(s[1..]);
      if IsSafe(s[0]) then
        SignificantConcat([s[0]], rest);
        [s[0]] + rest
      else rest
  }

  /** `replace(/_+/g, "_")`: an underscore followed by another one is dropped. */
  function SquashUnderscores(s: string): (r: string)
    ensures NoDoubleUnderscore(r)
    ensures |s| > 0 ==> |r| > 0 && r[0] == s[0]
    ensures Significant(r) == Significant(s)
    ensures NoDoubleUnderscore(s) ==> r == s
    ensures AllSafe(s) ==> AllSafe(r)
  {
    if |s| <= 1 then s
    else
      assert s == [s[0]] + s[1..];
      SignificantConcat([s[0]], s[1..]);
      var rest := SquashUnderscores(s[1..]);
      if s[0] == '_' && s[1] == '_' then rest
      else
        SignificantConcat([s[0]], rest);
        [s[0]] + rest
  }

  /** `toSafeName(input)`. */
  function ToSafeName(input: string): (r: string)
    requires IsAscii(input)
    ensures AllSafe(r)
    ensures NoDoubleUnderscore(r)
  {
    SquashUnderscores(KeepSafe(CollapseWhitespace(ToLower(Trim(input)))))
  }

  lemma {:induction false} SignificantOfSpaces(s: string)
    requires AllSpace(s)
    ensures Significant(s) == []
    decreases |s|
  {
    if |s| > 0 {
      SignificantOfSpaces(s[1..]);
    }
  }

  /** Whitespace at either end of `s` does not change its significant characters. */
  lemma SignificantIgnoresSpaces(p: string, s: string, q: string)
    requires AllSpace(p) && AllSpace(q)
    ensures Significant(ToLower(p + s + q)) == Significant(ToLower(s))
  {
    assert ToLower(p + s + q) == ToLower(p) + ToLower(s) + ToLower(q);
    SignificantConcat(ToLower(p) + ToLower(s), ToLower(q));
    SignificantConcat(ToLower(p), ToLower(s));
    SignificantOfSpaces(ToLower(p));
    SignificantOfSpaces(ToLower(q));
  }

  /**
   * Letters, digits, `:` and `-` survive in order, upper-case letters
   * lower-cased: the sanitiser drops only whitespace, separators and unsafe
   * characters.
   */
  lemma SignificantPreserved(input: string)
    requires IsAscii(input)
    ensures Significant(ToSafeName(input)) == Significant(ToLower(input))
  {
    var p, q := TrimSplit(input);
    SignificantIgnoresSpaces(p, Trim(input), q);
  }

  /** `trim()` removes a whitespace prefix and a whitespace suffix and nothing else. */
  lemma TrimSplit(s: string) returns (p: string, q: string)
    ensures AllSpace(p) && AllSpace(q)
    ensures s == p + Trim(s) + q
  {
    p := TrimStartSplit(s);
    q := TrimEndSplit(TrimStart(s));
    Associates(p, TrimEnd(TrimStart(s)), q);
  }

  lemma TrimStartSplit(s: string) returns (p: string)
    ensures AllSpace(p) && s == p + TrimStart(s)
  {
    p := s[..|s| - |TrimStart(s)|];
  }

  lemma TrimEndSplit(s: string) returns (q: string)
    ensures AllSpace(q) && s == TrimEnd(s) + q
  {
    q := s[|TrimEnd(s)|..];
  }

  /** An upper-case letter of the input shows up lower-cased in the safe name. */
  lemma UppercaseLowered(input: string, i: nat)
    requires IsAscii(input) && i < |input| && IsUpper(input[i])
    ensures Lower(input[i]) in ToSafeName(input)
  {
    var low := ToLower(input);
    var c := Lower(input[i]);
    assert low[i] == c && IsSignificant(c);
    assert c in Significant(low);
    SignificantPreserved(input);
    assert c in Significant(ToSafeName(input));
  }

  /** Whitespace around the input is ignored. */
  lemma SurroundingWhitespaceIgnored(p: string, s: string, q: string)
    requires AllSpace(p) && AllSpace(q) && IsAscii(p + s + q)
    ensures IsAscii(s)
    ensures ToSafeName(p + s + q) == ToSafeName(s)
  {
    assert s == (p + s + q)[|p|..|p| + |s|];
    TrimIgnoresSpaces(p, s, q);
  }

  lemma {:induction false} TrimStartSkipsSpaces(p: string, s: string)
    requires AllSpace(p)
    ensures TrimStart(p + s) == TrimStart(s)
    decreases |p|
  {
    if |p| > 0 {
      assert (p + s)[0] == p[0] && (p + s)[1..] == p[1..] + s;
      TrimStartSkipsSpaces(p[1..], s);
    } else {
      assert p + s == s;
    }
  }

  lemma {:induction false} TrimEndSkipsSpaces(s: string, q: string)
    requires AllSpace(q)
    ensures TrimEnd(s + q) == TrimEnd(s)
    decreases |q|
  {
    if |q| > 0 {
      assert (s + q)[|s + q| - 1] == q[|q| - 1] && (s + q)[..|s + q| - 1] == s + q[..|q| - 1];
      TrimEndSkipsSpaces(s, q[..|q| - 1]);
    } else {
      assert s + q == s;
    }
  }

  /** Step lemma for the trimming proofs. */
  lemma AllSpaceConcat(x: string, y: string)
    requires AllSpace(x) && AllSpace(y)
    ensures AllSpace(x + y)
  {
  }

  /** Step lemma: regrouping a concatenation, for the stage proofs. */
  lemma Associates(x: string, y: string, z: string)
    ensures x + y + z == x + (y + z)
  {
  }

  /** Trailing whitespace after a whitespace-only string trims to nothing. */
  lemma TrimStartOfBlank(s: string, q: string)
    requires AllSpace(s) && AllSpace(q)
    ensures TrimStart(s + q) == []
  {
    AllSpaceConcat(s, q);
    assert s + q == (s + q) + [];
    TrimStartSkipsSpaces(s + q, []);
  }

  /** Trailing whitespace after a non-blank string survives `TrimStart`. */
  lemma TrimStartKeepsTail(s: string, q: string)
    requires |TrimStart(s)| > 0
    ensures TrimStart(s + q) == TrimStart(s) + q
  {
    var a := TrimStart(s);
    var k := |s| - |a|;
    assert s == s[..k] + a;
    Associates(s[..k], a, q);
    TrimStartSkipsSpaces(s[..k], a + q);
    assert TrimStart(a + q) == a + q;
  }

  lemma TrimIgnoresSpaces(p: string, s: string, q: string)
    requires AllSpace(p) && AllSpace(q)
    ensures Trim(p + s + q) == Trim(s)
  {
    Associates(p, s, q);
    TrimStartSkipsSpaces(p, s + q);
    if |TrimStart(s)| == 0 {
      assert s == s[..|s|];
      TrimStartOfBlank(s, q);
    } else {
      TrimStartKeepsTail(s, q);
      TrimEndSkipsSpaces(TrimStart(s), q);
    }
  }

  /** A name that is already safe is left as it is. */
  lemma SafeNameIsFixed(s: string)
    requires AllSafe(s) && NoDoubleUnderscore(s)
    ensures IsAscii(s)
    ensures ToSafeName(s) == s
  {
    assert NoSpace(s);
    assert TrimStart(s) == s;
    assert TrimEnd(s) == s;
    assert ToLower(s) == s;
    assert CollapseWhitespace(s) == s;
    assert KeepSafe(s) == s;
  }

  /** `toSafeName` is idempotent. */
  lemma ToSafeNameIdempotent(input: string)
    requires IsAscii(input)
    ensures IsAscii(ToSafeName(input))
    ensures ToSafeName(ToSafeName(input)) == ToSafeName(input)
  {
    SafeNameIsFixed(ToSafeName(input));
  }

  // The three replacements, characterised on concatenations: each acts
  // locally, and a maximal run becomes exactly one separator.

  /** A string whose last character is not whitespace ends every whitespace run it contains. */
  predicate EndsOutsideSpace(s: string) {
    |s| == 0 || !IsSpace(s[|s| - 1])
  }

  predicate StartsOutsideSpace(s: string) {
    |s| == 0 || !IsSpace(s[0])
  }

  /** `\s+` never matches across a non-whitespace character, so the replacement splits there. */
  lemma {:induction false} CollapseConcat(x: string, y: string)
    requires EndsOutsideSpace(x)
    ensures CollapseWhitespace(x + y) == CollapseWhitespace(x) + CollapseWhitespace(y)
    decreases |x|
  {
    if |x| == 0 {
      assert x + y == y;
    } else {
      var s := x + y;
      assert s[0] == x[0] && s[1..] == x[1..] + y;
      if |x| == 1 {
        assert s[1..] == y && x[1..] == [];
        assert CollapseWhitespace(x) == [x[0]];
      } else {
        assert s[1] == x[1];
        var p: string := if IsSpace(x[0]) then (if IsSpace(x[1]) then [] else "_") else [x[0]];
        assert CollapseWhitespace(s) == p + CollapseWhitespace(s[1..]);
        assert CollapseWhitespace(x) == p + CollapseWhitespace(x[1..]);
        CollapseConcat(x[1..], y);
        Associates(p, CollapseWhitespace(x[1..]), CollapseWhitespace(y));
      }
    }
  }

  /** A whitespace run followed by a non-whitespace character (or by nothing) becomes one `_`. */
  lemma {:induction false} CollapseRun(w: string, b: string)
    requires |w| > 0 && AllSpace(w) && StartsOutsideSpace(b)
    ensures CollapseWhitespace(w + b) == "_" + CollapseWhitespace(b)
    decreases |w|
  {
    var s := w + b;
    assert s[0] == w[0] && s[1..] == w[1..] + b;
    if |w| > 1 {
      assert s[1] == w[1];
      CollapseRun(w[1..], b);
    } else {
      assert s[1..] == b;
    }
  }

  /** `replace(/\s+/g, "_")` turns a maximal whitespace run into exactly one `_` and leaves both sides as they would be alone. */
  lemma CollapseAroundRun(a: string, w: string, b: string)
    requires EndsOutsideSpace(a) && |w| > 0 && AllSpace(w) && StartsOutsideSpace(b)
    ensures CollapseWhitespace(a + w + b) == CollapseWhitespace(a) + "_" + CollapseWhitespace(b)
  {
    Associates(a, w, b);
    CollapseConcat(a, w + b);
    CollapseRun(w, b);
    Associates(CollapseWhitespace(a), "_", CollapseWhitespace(b));
  }

  /** `replace(/[^a-z0-9_:-]/g, "")` acts on each character separately. */
  lemma {:induction false} KeepSafeConcat(a: string, b: string)
    ensures KeepSafe(a + b) == KeepSafe(a) + KeepSafe(b)
    decreases |a|
  {
    if |a| == 0 {
      assert a + b == b;
    } else {
      assert (a + b)[0] == a[0] && (a + b)[1..] == a[1..] + b;
      KeepSafeConcat(a[1..], b);
      var p: string := if IsSafe(a[0]) then [a[0]] else [];
      assert KeepSafe(a + b) == p + KeepSafe(a[1..] + b);
      assert KeepSafe(a) == p + KeepSafe(a[1..]);
      Associates(p, KeepSafe(a[1..]), KeepSafe(b));
    }
  }

  predicate EndsOutsideUnderscore(s: string) {
    |s| == 0 || s[|s| - 1] != '_'
  }

  predicate StartsOutsideUnderscore(s: string) {
    |s| == 0 || s[0] != '_'
  }

  predicate AllUnderscore(s: string) {
    forall i | 0 <= i < |s| :: s[i] == '_'
  }

  /** `_+` never matches across another character, so the replacement splits there. */
  lemma {:induction false} SquashConcat(x: string, y: string)
    requires EndsOutsideUnderscore(x)
    ensures SquashUnderscores(x + y) == SquashUnderscores(x) + SquashUnderscores(y)
    decreases |x|
  {
    if |x| == 0 {
      assert x + y == y;
    } else {
      var s := x + y;
      assert s[0] == x[0] && s[1..] == x[1..] + y;
      if |x| == 1 {
        if |y| == 0 {
          assert s == x;
        } else {
          assert s[1..] == y;
        }
      } else {
        assert s[1] == x[1];
        var p: string := if x[0] == '_' && x[1] == '_' then [] else [x[0]];
        assert SquashUnderscores(s) == p + SquashUnderscores(s[1..]);
        assert SquashUnderscores(x) == p + SquashUnderscores(x[1..]);
        SquashConcat(x[1..], y);
        Associates(p, SquashUnderscores(x[1..]), SquashUnderscores(y));
      }
    }
  }

  /** A run of underscores followed by another character (or by nothing) becomes one `_`. */
  lemma {:induction false} SquashRun(u: string, b: string)
    requires |u| > 0 && AllUnderscore(u) && StartsOutsideUnderscore(b)
    ensures SquashUnderscores(u + b) == "_" + SquashUnderscores(b)
    decreases |u|
  {
    var s := u + b;
    assert s[0] == u[0] && s[1..] == u[1..] + b;
    if |u| > 1 {
      assert s[1] == u[1];
      SquashRun(u[1..], b);
    } else if |b| == 0 {
      assert s == "_";
    } else {
      assert s[1..] == b && s[1] == b[0];
    }
  }

  /** `replace(/_+/g, "_")` turns a maximal run of underscores into exactly one and leaves both sides as they would be alone. */
  lemma SquashAroundRun(a: string, u: string, b: string)
    requires EndsOutsideUnderscore(a) && |u| > 0 && AllUnderscore(u) && StartsOutsideUnderscore(b)
    ensures SquashUnderscores(a + u + b) == SquashUnderscores(a) + "_" + SquashUnderscores(b)
  {
    Associates(a, u, b);
    SquashConcat(a, u + b);
    SquashRun(u, b);
    Associates(SquashUnderscores(a), "_", SquashUnderscores(b));
  }

  /** Without whitespace at either end, `trim()` changes nothing. */
  lemma TrimOfPlainEnds(x: string)
    requires StartsOutsideSpace(x) && EndsOutsideSpace(x)
    ensures Trim(x) == x
  {
    assert TrimStart(x) == x;
    assert TrimEnd(x) == x;
  }

  lemma ToLowerConcat(a: string, b: string)
    ensures ToLower(a + b) == ToLower(a) + ToLower(b)
  {
    assert forall i | 0 <= i < |a + b| :: ToLower(a + b)[i] == (ToLower(a) + ToLower(b))[i];
  }

  /** Lower-casing neither creates nor removes whitespace. */
  lemma LowerKeepsSpacing(a: string)
    ensures AllSpace(a) ==> ToLower(a) == a
    ensures StartsOutsideSpace(a) ==> StartsOutsideSpace(ToLower(a))
    ensures EndsOutsideSpace(a) ==> EndsOutsideSpace(ToLower(a))
  {
  }

  /** Trimming and lower-casing a string with plain ends lower-cases each piece. */
  lemma LowerOfPlainJoin(a: string, m: string, b: string)
    requires |a| > 0 && |b| > 0
    requires StartsOutsideSpace(a) && EndsOutsideSpace(b)
    ensures ToLower(Trim(a + m + b)) == ToLower(a) + ToLower(m) + ToLower(b)
  {
    var x := a + m + b;
    assert x[0] == a[0] && x[|x| - 1] == b[|b| - 1];
    TrimOfPlainEnds(x);
    ToLowerConcat(a + m, b);
    ToLowerConcat(a, m);
  }

  /** Collapsing a run between two pieces gives what collapsing around a single `_` gives. */
  lemma CollapseRunAsUnderscore(la: string, w: string, lb: string)
    requires EndsOutsideSpace(la) && |w| > 0 && AllSpace(w) && StartsOutsideSpace(lb)
    ensures CollapseWhitespace(la + w + lb) == CollapseWhitespace(la + "_" + lb)
  {
    CollapseAroundRun(la, w, lb);
    Associates(la, "_", lb);
    CollapseConcat(la, "_" + lb);
    CollapseConcat("_", lb);
    assert CollapseWhitespace("_") == "_";
    Associates(CollapseWhitespace(la), "_", CollapseWhitespace(lb));
  }

  /**
   * Inside the name, a maximal whitespace run has the same effect as a single
   * `_`: the two inputs yield the same safe name, whatever the rest contains.
   */
  lemma InteriorWhitespaceBecomesUnderscore(a: string, w: string, b: string)
    requires IsAscii(a) && IsAscii(b) && |a| > 0 && |b| > 0 && |w| > 0 && AllSpace(w)
    requires StartsOutsideSpace(a) && EndsOutsideSpace(a) && StartsOutsideSpace(b) && EndsOutsideSpace(b)
    ensures IsAscii(a + w + b) && IsAscii(a + "_" + b)
    ensures ToSafeName(a + w + b) == ToSafeName(a + "_" + b)
  {
    AsciiJoin(a, w, b);
    AsciiJoin(a, "_", b);
    LowerOfPlainJoin(a, w, b);
    LowerOfPlainJoin(a, "_", b);
    LowerKeepsSpacing(w);
    assert ToLower("_") == "_";
    LowerKeepsSpacing(a);
    LowerKeepsSpacing(b);
    CollapseRunAsUnderscore(ToLower(a), w, ToLower(b));
  }

  /** Whitespace and `_` are ASCII, so joining ASCII words with them stays ASCII. */
  lemma AsciiJoin(a: string, m: string, b: string)
    requires IsAscii(a) && IsAscii(b) && (AllSpace(m) || m == "_")
    ensures IsAscii(a + m + b)
  {
    var x := a + m + b;
    forall i | 0 <= i < |x|
      ensures x[i] as int < 128
    {
      if i < |a| {
        assert x[i] == a[i];
      } else if i < |a| + |m| {
        assert x[i] == m[i - |a|];
      } else {
        assert x[i] == b[i - |a| - |m|];
      }
    }
  }

  /** Every whitespace run between words becomes one `_`. */
  lemma ThreeWordsJoined()
    ensures ToSafeName("a b c") == "a_b_c"
  {
    FirstGapJoined();
    SecondGapJoined();
    JoinedWordsStay();
  }

  /** A space after punctuation is still a separator: the comma is left for the filter. */
  lemma GreetingGapJoined()
    ensures ToSafeName("Hello, World") == ToSafeName("Hello,_World")
  {
    var a: string := "Hello,";
    var b: string := "World";
    assert a + " " + b == "Hello, World";
    assert a + "_" + b == "Hello,_World";
    assert IsAscii(a) by {
      assert forall i | 0 <= i < |a| :: a[i] in "Hello,";
    }
    assert IsAscii(b) by {
      assert forall i | 0 <= i < |b| :: b[i] in "World";
    }
    InteriorWhitespaceBecomesUnderscore(a, " ", b);
  }

  lemma JoinedWordsStay()
    ensures ToSafeName("a_b_c") == "a_b_c"
  {
    var x3: string := "a_b_c";
    assert x3[0] == 'a' && x3[1] == '_' && x3[2] == 'b' && x3[3] == '_' && x3[4] == 'c';
    assert AllSafe(x3);
    assert NoDoubleUnderscore(x3);
    SafeNameIsFixed(x3);
  }

  lemma FirstGapJoined()
    ensures ToSafeName("a b c") == ToSafeName("a_b c")
  {
    assert "a" + " " + "b c" == "a b c";
    assert "a" + "_" + "b c" == "a_b c";
    assert IsAscii("b c");
    InteriorWhitespaceBecomesUnderscore("a", " ", "b c");
  }

  lemma SecondGapJoined()
    ensures ToSafeName("a_b c") == ToSafeName("a_b_c")
  {
    assert "a_b" + " " + "c" == "a_b c";
    assert "a_b" + "_" + "c" == "a_b_c";
    assert IsAscii("a_b");
    InteriorWhitespaceBecomesUnderscore("a_b", " ", "c");
  }

  lemma JoinedWordsAreSafe(a: string, b: string)
    requires forall i | 0 <= i < |a| :: IsSignificant(a[i])
    requires forall i | 0 <= i < |b| :: IsSignificant(b[i])
    ensures AllSafe(a + "_" + b) && NoDoubleUnderscore(a + "_" + b)
  {
  }

  /** Two words of significant characters separated by a whitespace run are joined by exactly one `_`. */
  lemma TwoWordsJoined(a: string, w: string, b: string)
    requires |a| > 0 && |b| > 0 && |w| > 0
    requires forall i | 0 <= i < |a| :: IsSignificant(a[i])
    requires forall i | 0 <= i < |b| :: IsSignificant(b[i])
    requires AllSpace(w)
    ensures IsAscii(a + w + b)
    ensures ToSafeName(a + w + b) == a + "_" + b
  {
    InteriorWhitespaceBecomesUnderscore(a, w, b);
    JoinedWordsAreSafe(a, b);
    SafeNameIsFixed(a + "_" + b);
  }

  /** The decimal digit `d`. */
  function Digit(d: nat): char
    requires d < 10
  {
    ('0' as int + d) as char
  }

  predicate IsDigit(c: char) {
    '0' <= c <= '9'
  }

  predicate AllDigits(s: string) {
    forall i | 0 <= i < |s| :: IsDigit(s[i])
  }

  /** The number a string of decimal digits denotes, most significant first. */
  function ParseDecimal(s: string): int {
    if |s| == 0 then 0
    else ParseDecimal(s[..|s| - 1]) * 10 + (s[|s| - 1] as int - '0' as int)
  }

  /** `String(n)` for a non-negative integer. */
  function NatToString(n: nat): (r: string)
    ensures |r| > 0 && AllDigits(r)
    ensures ParseDecimal(r) == n
    ensures n >= 10 ==> r[0] != '0'
    ensures n < 10 <==> |r| == 1
    ensures 10 <= n < 100 <==> |r| == 2
    ensures 1000 <= n < 10000 <==> |r| == 4
  {
    if n < 10 then [Digit(n)]
    else
      var r := NatToString(n / 10) + [Digit(n % 10)];
      assert r[..|r| - 1] == NatToString(n / 10);
      r
  }

  /** `s.padStart(width, fill)`. */
  function PadStart(s: string, width: nat, fill: char): (r: string)
    ensures |s| >= width ==> r == s
    ensures |s| < width ==>
      |r| == width && r[width - |s|..] == s && forall i | 0 <= i < width - |s| :: r[i] == fill
  {
    if |s| >= width then s else seq(width - |s|, _ => fill) + s
  }

  /** `pad(n)`: `String(n).padStart(2, "0")`. */
  function Pad(n: nat): (r: string)
    ensures AllDigits(r)
    ensures n <= 99 ==> |r| == 2 && ParseDecimal(r) == n
    ensures n >= 10 ==> r == NatToString(n)
  {
    var s := NatToString(n);
    var r := PadStart(s, 2, '0');
    assert n < 10 ==> r == ['0', s[0]] && r[..1] == ['0'];
    r
  }

  /** The fields of the local time `new Date()` reports; `month` counts from 0 as `getMonth()` does. */
  datatype DateTime = DateTime(year: nat, month: nat, day: nat, hours: nat, minutes: nat, seconds: nat)

  predicate ValidTime(d: DateTime) {
    1000 <= d.year <= 9999 && d.month < 12 && 1 <= d.day <= 31 && d.hours < 24 && d.minutes < 60 && d.seconds < 60
  }

  /** The number the digits of a timestamp spell: two decimal places per field after the year. */
  function TimeValue(d: DateTime): int {
    ((((d.year * 100 + (d.month + 1)) * 100 + d.day) * 100 + d.hours) * 100 + d.minutes) * 100 + d.seconds
  }

  /**
   * `timestamp()`: year, month, day, hours, minutes and seconds joined without
   * separators. For a valid time the 14 digits spell `TimeValue(d)`, so each
   * field can be read back from its two (four for the year) digits.
   */
  function Timestamp(d: DateTime): (r: string)
    ensures AllDigits(r)
    ensures ValidTime(d) ==> |r| == 14 && ParseDecimal(r) == TimeValue(d)
  {
    var y := NatToString(d.year);
    var r1 := y + Pad(d.month + 1);
    var r2 := r1 + Pad(d.day);
    var r3 := r2 + Pad(d.hours);
    var r4 := r3 + Pad(d.minutes);
    var r := r4 + Pad(d.seconds);
    if ValidTime(d) then
      AppendPad(y, d.year, d.month + 1);
      AppendPad(r1, d.year * 100 + (d.month + 1), d.day);
      AppendPad(r2, (d.year * 100 + (d.month + 1)) * 100 + d.day, d.hours);
      AppendPad(r3, ((d.year * 100 + (d.month + 1)) * 100 + d.day) * 100 + d.hours, d.minutes);
      AppendPad(r4, (((d.year * 100 + (d.month + 1)) * 100 + d.day) * 100 + d.hours) * 100 + d.minutes, d.seconds);
      r
    else r
  }

  /** Appending two padded digits of `n` to the digits of `v` reads as `v * 100 + n`. */
  lemma AppendPad(x: string, v: int, n: nat)
    requires ParseDecimal(x) == v && n <= 99
    ensures |x + Pad(n)| == |x| + 2
    ensures ParseDecimal(x + Pad(n)) == v * 100 + n
  {
    ParseConcat(x, Pad(n));
    assert Pow10(2) == 100;
  }

  /** `` `${timestamp()}_${name}.ts` ``. */
  function SeedFileName(ts: string, name: string): (r: string)
    ensures SeedRunner.IsSeedFile(r) && SeedRunner.EndsWith(r, ".ts")
    ensures |r| == |ts| + |name| + 4
    ensures r[..|ts|] == ts && r[|ts|] == '_' && r[|ts| + 1..|ts| + 1 + |name|] == name
  {
    var r := ts + ("_" + name + ".ts");
    assert r[|r| - 3..] == ".ts";
    r
  }

  function Pow10(n: nat): (r: nat)
    ensures r > 0
  {
    if n == 0 then 1 else 10 * Pow10(n - 1)
  }

  /** Reading `x + y` reads `x`, shifts it past the digits of `y` and adds `y`. */
  lemma {:induction false} ParseConcat(x: string, y: string)
    ensures ParseDecimal(x + y) == ParseDecimal(x) * Pow10(|y|) + ParseDecimal(y)
    decreases |y|
  {
    if |y| == 0 {
      assert x + y == x;
    } else {
      var y' := y[..|y| - 1];
      assert (x + y)[..|x + y| - 1] == x + y';
      assert (x + y)[|x + y| - 1] == y[|y| - 1];
      ParseConcat(x, y');
      calc {
        ParseDecimal(x + y);
        ParseDecimal(x + y') * 10 + (y[|y| - 1] as int - '0' as int);
        (ParseDecimal(x) * Pow10(|y'|) + ParseDecimal(y')) * 10 + (y[|y| - 1] as int - '0' as int);
        { assert Pow10(|y|) == 10 * Pow10(|y'|); }
        ParseDecimal(x) * Pow10(|y|) + ParseDecimal(y);
      }
    }
  }

  /** A string of `n` digits denotes a number below `10^n`. */
  lemma {:induction false} ParseBound(s: string)
    requires AllDigits(s)
    ensures 0 <= ParseDecimal(s) < Pow10(|s|)
    decreases |s|
  {
    if |s| > 0 {
      ParseBound(s[..|s| - 1]);
    }
  }

  /** Reading from the front: the leading digit weighs `10^(n-1)`. */
  lemma ParseFront(s: string)
    requires |s| > 0
    ensures ParseDecimal(s) == (s[0] as int - '0' as int) * Pow10(|s| - 1) + ParseDecimal(s[1..])
  {
    assert s == [s[0]] + s[1..];
    ParseConcat([s[0]], s[1..]);
    assert [s[0]][..0] == [];
  }

  lemma LeadingDigitDominates(a: int, b: int, p: int, x: int, y: int)
    requires a < b && 0 <= x < p && 0 <= y
    ensures a * p + x < b * p + y
  {
    var k := b - a - 1;
    assert k * p >= 0 by {
      MulNonNegative(k, p);
    }
    assert b * p == a * p + k * p + p by {
      assert b == a + k + 1;
    }
  }

  /** Step lemma for `LeadingDigitDominates`. */
  lemma MulNonNegative(u: int, v: int)
    requires u >= 0 && v >= 0
    ensures u * v >= 0
  {
  }

  /** For digit strings of equal length, the order the seed runner sorts by is numeric order. */
  lemma {:induction false} DigitOrderIsNumeric(s: string, t: string)
    requires |s| == |t| && AllDigits(s) && AllDigits(t)
    ensures SeedRunner.LexLe(s, t) <==> ParseDecimal(s) <= ParseDecimal(t)
    decreases |s|
  {
    if |s| > 0 {
      var p := Pow10(|s| - 1);
      var ds := s[0] as int - '0' as int;
      var dt := t[0] as int - '0' as int;
      ParseFront(s);
      ParseFront(t);
      ParseBound(s[1..]);
      ParseBound(t[1..]);
      if ds < dt {
        LeadingDigitDominates(ds, dt, p, ParseDecimal(s[1..]), ParseDecimal(t[1..]));
      } else if ds > dt {
        LeadingDigitDominates(dt, ds, p, ParseDecimal(t[1..]), ParseDecimal(s[1..]));
      } else {
        DigitOrderIsNumeric(s[1..], t[1..]);
      }
    }
  }

  /** Comparing two strings whose first parts have the same length compares those parts first. */
  lemma {:induction false} LexLeConcat(x1: string, y1: string, x2: string, y2: string)
    requires |x1| == |x2|
    ensures x1 == x2 ==> (SeedRunner.LexLe(x1 + y1, x2 + y2) <==> SeedRunner.LexLe(y1, y2))
    ensures x1 != x2 ==> (SeedRunner.LexLe(x1 + y1, x2 + y2) <==> SeedRunner.LexLe(x1, x2))
    decreases |x1|
  {
    if |x1| == 0 {
      assert x1 + y1 == y1 && x2 + y2 == y2;
    } else {
      assert (x1 + y1)[0] == x1[0] && (x1 + y1)[1..] == x1[1..] + y1;
      assert (x2 + y2)[0] == x2[0] && (x2 + y2)[1..] == x2[1..] + y2;
      LexLeConcat(x1[1..], y1, x2[1..], y2);
      if x1[0] == x2[0] && x1 != x2 {
        assert x1 == [x1[0]] + x1[1..] && x2 == [x2[0]] + x2[1..];
      }
    }
  }

  /**
   * The local wall-clock reading `d1` comes strictly before `d2`, comparing
   * field by field. This is an order on readings, not on instants: a
   * daylight-saving or time-zone change can make a later instant read earlier.
   */
  predicate Before(d1: DateTime, d2: DateTime) {
    d1.year < d2.year || (d1.year == d2.year &&
    (d1.month < d2.month || (d1.month == d2.month &&
    (d1.day < d2.day || (d1.day == d2.day &&
    (d1.hours < d2.hours || (d1.hours == d2.hours &&
    (d1.minutes < d2.minutes || (d1.minutes == d2.minutes && d1.seconds < d2.seconds)))))))))
  }

  /** An earlier wall-clock reading has the smaller timestamp. */
  lemma EarlierTimestampSortsFirst(d1: DateTime, d2: DateTime)
    requires ValidTime(d1) && ValidTime(d2) && Before(d1, d2)
    ensures SeedRunner.LexLe(Timestamp(d1), Timestamp(d2)) && Timestamp(d1) != Timestamp(d2)
  {
    DigitOrderIsNumeric(Timestamp(d1), Timestamp(d2));
  }

  /**
   * A seed created at an earlier local wall-clock reading (to the second) is
   * run before one created at a later reading, whatever their names: the
   * runner's sort puts its file name first.
   */
  lemma EarlierSeedRunsFirst(d1: DateTime, name1: string, d2: DateTime, name2: string)
    requires ValidTime(d1) && ValidTime(d2) && Before(d1, d2)
    ensures var f1 := SeedFileName(Timestamp(d1), name1);
      var f2 := SeedFileName(Timestamp(d2), name2);
      SeedRunner.LexLe(f1, f2) && f1 != f2
  {
    var t1 := Timestamp(d1);
    var t2 := Timestamp(d2);
    EarlierTimestampSortsFirst(d1, d2);
    var f1 := SeedFileName(t1, name1);
    var f2 := SeedFileName(t2, name2);
    LexLeConcat(t1, "_" + name1 + ".ts", t2, "_" + name2 + ".ts");
  }

  /** The result of `make:seed`: a usage error, or the new file and what its module exports. */
  datatype Outcome = UsageError | Created(fileName: string, exports: SeedRunner.SeedModule)

  /**
   * `main` of make-seed: `rawName` is the first command-line argument, `now`
   * the clock. The template exports `seed` and no `skipProd`.
   */
  function MakeSeedFile(rawName: Option<string>, now: DateTime): (r: Outcome)
    requires rawName.Some? ==> IsAscii(rawName.value)
    ensures r == UsageError <==> rawName.None? || rawName.value == ""
    ensures r.Created? ==> SeedRunner.IsSeedFile(r.fileName) && r.exports == SeedRunner.SeedModule(true, None)
    ensures r.Created? ==>
      exists name | AllSafe(name) && NoDoubleUnderscore(name) :: r.fileName == SeedFileName(Timestamp(now), name)
    ensures r.Created? ==> r.fileName == SeedFileName(Timestamp(now), ToSafeName(rawName.value))
    ensures r.Created? ==> Significant(ToSafeName(rawName.value)) == Significant(ToLower(rawName.value))
  {
    if rawName.None? || rawName.value == "" then UsageError
    else
      var name := ToSafeName(rawName.value);
      SignificantPreserved(rawName.value);
      Created(SeedFileName(Timestamp(now), name), SeedRunner.SeedModule(true, None))
  }

  /** A seed file created by `make:seed` is picked up and run by the seed runner in every environment. */
  lemma CreatedSeedAlwaysRuns(rawName: Option<string>, now: DateTime, env: Option<string>)
    requires rawName.Some? ==> IsAscii(rawName.value)
    ensures var r := MakeSeedFile(rawName, now);
      r.Created? ==> SeedRunner.Decide(r.fileName, r.exports, env) == SeedRunner.Run(r.fileName)
  {
  }
}
