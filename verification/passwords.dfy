/** Constrained password enumeration (Lab/5laba.py).

    A password of length K is built from distinct characters of the ordered
    alphabet `LettersAndDigits` (a-z, then A-Z, then 0-9). Its first T positions
    must be letters and it must contain at least one digit. Two generators
    produce the passwords: a backtracking search that prunes digits from the
    first T positions, and a filter over all K-permutations of the alphabet.
    Both walk the alphabet in the same order and return the same list. */
module Passwords {
  import opened Wrappers
  import opened Lists

  // ---------------------------------------------------------------------
  // The alphabet
  // ---------------------------------------------------------------------

  /** The n consecutive characters starting at lo, in code-point order. */
  function Run(lo: char, n: nat): (s: string)
    requires lo as int + n <= 0xD800
    ensures |s| == n
    ensures forall i :: 0 <= i < n ==> s[i] as int == lo as int + i
  {
    seq(n, i requires 0 <= i < n => (lo as int + i) as char)
  }

  lemma {:induction false} InRun(lo: char, n: nat, c: char)
    requires lo as int + n <= 0xD800
    ensures c in Run(lo, n) <==> lo as int <= c as int < lo as int + n
  {
    if lo as int <= c as int < lo as int + n {
      assert Run(lo, n)[c as int - lo as int] == c;
    }
  }

  /** Python's string.ascii_lowercase, string.ascii_uppercase and string.digits. */
  const Lowercase: string := Run('a', 26)
  const Uppercase: string := Run('A', 26)
  const Digits: string := Run('0', 10)

  /** string.ascii_letters: the lowercase letters, then the uppercase ones. */
  const Letters: string := Lowercase + Uppercase

  /** The candidate pool of every password position past the first T. */
  const LettersAndDigits: string := Letters + Digits

  /** `c in letters` */
  predicate IsLetter(c: char) { 'a' <= c <= 'z' || 'A' <= c <= 'Z' }
  /** `c in digits` */
  predicate IsDigit(c: char) { '0' <= c <= '9' }
  /** `c in string.ascii_uppercase` */
  predicate IsUpper(c: char) { 'A' <= c <= 'Z' }

  /** The range tests are the membership tests of the Python code. */
  lemma {:induction false} MembershipTests(c: char)
    ensures c in Letters <==> IsLetter(c)
    ensures c in Digits <==> IsDigit(c)
    ensures c in Uppercase <==> IsUpper(c)
  {
    InRun('a', 26, c);
    InRun('A', 26, c);
    InRun('0', 10, c);
  }

  /** The code point at each position of the alphabet. */
  lemma {:induction false} AlphabetCode(i: nat)
    requires i < 62
    ensures LettersAndDigits[i] as int
         == if i < 26 then 'a' as int + i
            else if i < 52 then 'A' as int + (i - 26)
            else '0' as int + (i - 52)
  {
    if i < 26 {
      assert LettersAndDigits[i] == Lowercase[i];
    } else if i < 52 {
      assert LettersAndDigits[i] == Uppercase[i - 26];
    } else {
      assert LettersAndDigits[i] == Digits[i - 52];
    }
  }

  /** `letters_and_digits` is 62 distinct characters: the 52 letters, then
      the 10 digits. */
  lemma {:induction false} AlphabetFacts()
    ensures |Letters| == 52 && |LettersAndDigits| == 62
    ensures LettersAndDigits[..52] == Letters
    ensures forall i :: 52 <= i < 62 ==> IsDigit(LettersAndDigits[i])
    ensures Distinct(LettersAndDigits)
  {
    forall i, j | 0 <= i < j < |LettersAndDigits|
      ensures LettersAndDigits[i] != LettersAndDigits[j]
    {
      AlphabetCode(i);
      AlphabetCode(j);
    }
    forall i | 52 <= i < 62
      ensures IsDigit(LettersAndDigits[i])
    {
      assert LettersAndDigits[i] == Digits[i - 52];
    }
  }

  // ---------------------------------------------------------------------
  // What a valid password is
  // ---------------------------------------------------------------------

  /** `any(c in digits for c in p)` */
  predicate HasDigit(p: string) {
    exists i :: 0 <= i < |p| && IsDigit(p[i])
  }

  /** `all(c in letters for c in p[:t])` */
  predicate LeadingLetters(p: string, t: nat) {
    forall i :: 0 <= i < |p| && i < t ==> IsLetter(p[i])
  }

  /** The condition the functional generator filters by. */
  predicate Valid(p: string, t: nat) {
    LeadingLetters(p, t) && HasDigit(p)
  }

  /** `Valid(_, t)` as a value, so that every filter by it names one function. */
  function ValidAt(t: nat): string -> bool {
    p => Valid(p, t)
  }

  /** No character occurs twice. */
  predicate Distinct(p: string) {
    forall i, j :: 0 <= i < j < |p| ==> p[i] != p[j]
  }

  /** A K-permutation of the alphabet: K distinct characters of LettersAndDigits. */
  predicate IsKPermutation(p: string, k: nat) {
    |p| == k && Distinct(p) && forall i :: 0 <= i < |p| ==> p[i] in LettersAndDigits
  }

  lemma {:induction false} DistinctSnoc(p: string, c: char)
    requires Distinct(p) && c !in p
    ensures Distinct(p + [c])
  {
    var q := p + [c];
    forall i, j | 0 <= i < j < |q|
      ensures q[i] != q[j]
    {
      if j == |p| {
        assert q[i] == p[i];
      } else {
        assert q[i] == p[i] && q[j] == p[j];
      }
    }
  }

  /** The characters of `pool` not yet used by `path`; it shrinks with every
      extension and so bounds the depth of both searches. */
  function Remaining(pool: string, path: string): set<char> {
    (set c | c in pool) - (set c | c in path)
  }

  lemma {:induction false} RemainingShrinks(pool: string, path: string, c: char)
    requires c in pool && c !in path
    ensures Remaining(pool, path + [c]) < Remaining(pool, path)
  {
    assert c in Remaining(pool, path);
    assert c !in Remaining(pool, path + [c]);
  }

  // ---------------------------------------------------------------------
  // The backtracking generator
  // ---------------------------------------------------------------------

  /** `letters if pos < T else letters_and_digits` */
  function Candidates(t: nat, pos: nat): (cs: string)
    ensures forall i :: 0 <= i < |cs| ==> cs[i] in LettersAndDigits
  {
    if pos < t then Letters else LettersAndDigits
  }

  /** The passwords the backtracking search appends, in order, when it is
      entered with the partial password `path`; `accept` is the test applied
      to a complete password. */
  function Completions(k: nat, t: nat, accept: string -> bool, path: string): seq<string>
    decreases Remaining(LettersAndDigits, path), 1, 0
  {
    if |path| == k then (if accept(path) then [path] else [])
    else Branches(k, t, accept, path, |Candidates(t, |path|)|)
  }

  /** The passwords found below `path` by the first n candidates of its position. */
  function Branches(k: nat, t: nat, accept: string -> bool, path: string, n: nat): seq<string>
    requires n <= |Candidates(t, |path|)|
    decreases Remaining(LettersAndDigits, path), 0, n
  {
    if n == 0 then []
    else
      var ch := Candidates(t, |path|)[n - 1];
      Branches(k, t, accept, path, n - 1) +
      (if ch in path then []
       else RemainingShrinks(LettersAndDigits, path, ch); Completions(k, t, accept, path + [ch]))
  }

  /** The set of characters of a sequence: Python's `used` set beside `path`. */
  function Chars(s: string): set<char> {
    set c | c in s
  }

  /** `backtrack(path, used, pos)`: appends to `result` every completion of
      `path` that `accept` admits, and leaves `path` and `used` as it found
      them. */
  method Backtrack(k: nat, t: nat, accept: string -> bool, path: string, used: set<char>, pos: nat,
                   result: seq<string>)
    returns (result': seq<string>, path': string, used': set<char>)
    requires used == Chars(path) && pos == |path|
    ensures result' == result + Completions(k, t, accept, path)
    ensures path' == path && used' == used
    decreases Remaining(LettersAndDigits, path), 1
  {
    if |path| == k {
      result' := if accept(path) then result + [path] else result;
      return result', path, used;
    }
    var candidates := Candidates(t, pos);
    var p, u := path, used;
    result' := result;
    var i := 0;
    while i < |candidates|
      invariant 0 <= i <= |candidates|
      invariant p == path
      invariant u == used
      invariant result' == result + Branches(k, t, accept, path, i)
    {
      result', p, u := TryCandidate(k, t, accept, p, u, pos, candidates[i], result');
      assert result' == result + Branches(k, t, accept, path, i + 1) by {
        AppendAssoc(result, Branches(k, t, accept, path, i),
                    if candidates[i] in path then [] else Completions(k, t, accept, path + [candidates[i]]));
      }
      i := i + 1;
    }
    path', used' := p, u;
  }

  /** One pass of the candidate loop: a character not yet used is pushed,
      explored and popped again. */
  method TryCandidate(k: nat, t: nat, accept: string -> bool, path: string, used: set<char>, pos: nat,
                      ch: char, result: seq<string>)
    returns (result': seq<string>, path': string, used': set<char>)
    requires used == Chars(path) && pos == |path| && ch in LettersAndDigits
    ensures result' == result + (if ch in path then [] else Completions(k, t, accept, path + [ch]))
    ensures path' == path && used' == used
    decreases Remaining(LettersAndDigits, path), 0
  {
    if ch in used {
      return result, path, used;
    }
    var p := path + [ch];
    var u := used + {ch};
    assert u == Chars(p);
    RemainingShrinks(LettersAndDigits, path, ch);
    result', p, u := Backtrack(k, t, accept, p, u, pos + 1, result);
    assert p == path + [ch] && p[..|p| - 1] == path;
    p := p[..|p| - 1];
    u := u - {ch};
    assert u == used;
    path', used' := p, u;
  }

  /** The list `generate_passwords_algorithmic(K, T)` returns. */
  function Algorithmic(k: nat, t: nat): seq<string> {
    Completions(k, t, HasDigit, [])
  }

  // ---------------------------------------------------------------------
  // The functional generator
  // ---------------------------------------------------------------------

  /** `itertools.permutations(pool, r)` continued from the partial tuple
      `prefix`: every way to extend `prefix` to length r with characters of
      `pool` not already in it, in the order of `pool`. For a pool without
      repeated characters this is the library's order, lexicographic in the
      positions of the pool. */
  function Permutations(pool: string, r: nat, prefix: string): seq<string>
    decreases Remaining(pool, prefix), 1, 0
  {
    if |prefix| == r then [prefix]
    else PermutationBranches(pool, r, prefix, |pool|)
  }

  function PermutationBranches(pool: string, r: nat, prefix: string, n: nat): seq<string>
    requires n <= |pool|
    decreases Remaining(pool, prefix), 0, n
  {
    if n == 0 then []
    else
      var c := pool[n - 1];
      PermutationBranches(pool, r, prefix, n - 1) +
      (if c in prefix then []
       else RemainingShrinks(pool, prefix, c); Permutations(pool, r, prefix + [c]))
  }

  /** The list `generate_passwords_functional(K, T)` returns. */
  function Functional(k: nat, t: nat): seq<string> {
    Keep(ValidAt(t), Permutations(LettersAndDigits, k, []))
  }

  /** `generate_passwords_functional`: the loop over all K-permutations that
      keeps the valid ones. */
  method GeneratePasswordsFunctional(k: nat, t: nat) returns (valid: seq<string>)
    ensures valid == Functional(k, t)
    ensures forall p :: p in valid <==> IsKPermutation(p, k) && Valid(p, t)
  {
    var combos := Permutations(LettersAndDigits, k, []);
    valid := [];
    var i := 0;
    while i < |combos|
      invariant 0 <= i <= |combos|
      invariant valid == Keep(ValidAt(t), combos[..i])
    {
      assert combos[..i + 1][..i] == combos[..i];
      if Valid(combos[i], t) {
        valid := valid + [combos[i]];
      }
      i := i + 1;
    }
    assert combos[..i] == combos;
    FunctionalMembers(k, t);
  }

  // ---------------------------------------------------------------------
  // What the permutations are
  // ---------------------------------------------------------------------

  /** Every permutation continuing `prefix` starts with `prefix`. */
  lemma {:induction false} PermutationsExtend(pool: string, r: nat, prefix: string)
    ensures forall x :: x in Permutations(pool, r, prefix) ==> |prefix| <= |x| && x[..|prefix|] == prefix
    decreases Remaining(pool, prefix), 1, 0
  {
    if |prefix| != r {
      PermutationBranchesExtend(pool, r, prefix, |pool|);
    }
  }

  lemma {:induction false} PermutationBranchesExtend(pool: string, r: nat, prefix: string, n: nat)
    requires n <= |pool|
    ensures forall x :: x in PermutationBranches(pool, r, prefix, n) ==> |prefix| <= |x| && x[..|prefix|] == prefix
    decreases Remaining(pool, prefix), 0, n
  {
    if n > 0 {
      var c := pool[n - 1];
      PermutationBranchesExtend(pool, r, prefix, n - 1);
      if c !in prefix {
        RemainingShrinks(pool, prefix, c);
        PermutationsExtend(pool, r, prefix + [c]);
        forall x | x in Permutations(pool, r, prefix + [c])
          ensures |prefix| <= |x| && x[..|prefix|] == prefix
        {
          assert x[..|prefix| + 1][..|prefix|] == x[..|prefix|];
        }
      }
    }
  }

  /** The branches taken from the first n characters of the pool. */
  lemma {:induction false} InPermutationBranches(pool: string, r: nat, prefix: string, n: nat, x: string)
    requires n <= |pool|
    ensures x in PermutationBranches(pool, r, prefix, n) <==>
            exists j :: 0 <= j < n && pool[j] !in prefix && x in Permutations(pool, r, prefix + [pool[j]])
  {
    if n > 0 {
      var c := pool[n - 1];
      InPermutationBranches(pool, r, prefix, n - 1, x);
      var last := if c in prefix then [] else Permutations(pool, r, prefix + [c]);
      assert PermutationBranches(pool, r, prefix, n) == PermutationBranches(pool, r, prefix, n - 1) + last;
      if x in last {
        assert 0 <= n - 1 < n && pool[n - 1] !in prefix && x in Permutations(pool, r, prefix + [pool[n - 1]]);
      }
      if exists j :: 0 <= j < n && pool[j] !in prefix && x in Permutations(pool, r, prefix + [pool[j]]) {
        var j :| 0 <= j < n && pool[j] !in prefix && x in Permutations(pool, r, prefix + [pool[j]]);
        if j == n - 1 {
          assert x in last;
        }
      }
    }
  }

  /** A length-r extension of `prefix` by distinct characters of `pool`. */
  predicate Extends(pool: string, r: nat, prefix: string, x: string) {
    |x| == r && |prefix| <= |x| && x[..|prefix|] == prefix && Distinct(x) &&
    forall i :: |prefix| <= i < |x| ==> x[i] in pool
  }

  /** Everything Permutations(pool, r, prefix) lists extends `prefix`. */
  lemma {:induction false} PermutationsSound(pool: string, r: nat, prefix: string, x: string)
    requires Distinct(prefix) && |prefix| <= r
    requires x in Permutations(pool, r, prefix)
    ensures Extends(pool, r, prefix, x)
    decreases Remaining(pool, prefix)
  {
    if |prefix| != r {
      InPermutationBranches(pool, r, prefix, |pool|, x);
      var j :| 0 <= j < |pool| && pool[j] !in prefix && x in Permutations(pool, r, prefix + [pool[j]]);
      var c := pool[j];
      DistinctSnoc(prefix, c);
      RemainingShrinks(pool, prefix, c);
      PermutationsSound(pool, r, prefix + [c], x);
      assert x[..|prefix| + 1][..|prefix|] == x[..|prefix|];
      assert x[|prefix|] == (prefix + [c])[|prefix|];
    }
  }

  /** Every extension of `prefix` is listed by Permutations(pool, r, prefix). */
  lemma {:induction false} PermutationsComplete(pool: string, r: nat, prefix: string, x: string)
    requires Distinct(prefix) && |prefix| <= r
    requires Extends(pool, r, prefix, x)
    ensures x in Permutations(pool, r, prefix)
    decreases Remaining(pool, prefix)
  {
    if |prefix| == r {
      assert x == prefix;
    } else {
      var c := x[|prefix|];
      var j :| 0 <= j < |pool| && pool[j] == c;
      assert c !in prefix by {
        forall i | 0 <= i < |prefix|
          ensures prefix[i] != c
        {
          assert prefix[i] == x[i];
        }
      }
      var prefix' := prefix + [c];
      assert x[..|prefix'|] == prefix';
      DistinctSnoc(prefix, c);
      RemainingShrinks(pool, prefix, c);
      PermutationsComplete(pool, r, prefix', x);
      InPermutationBranches(pool, r, prefix, |pool|, x);
    }
  }

  /** Permutations(pool, r, prefix) holds exactly the length-r extensions of
      `prefix` by distinct characters of `pool`. */
  lemma {:induction false} PermutationsMembers(pool: string, r: nat, prefix: string, x: string)
    requires Distinct(prefix) && |prefix| <= r
    ensures x in Permutations(pool, r, prefix) <==> Extends(pool, r, prefix, x)
  {
    if x in Permutations(pool, r, prefix) {
      PermutationsSound(pool, r, prefix, x);
    }
    if Extends(pool, r, prefix, x) {
      PermutationsComplete(pool, r, prefix, x);
    }
  }

  /** `generate_passwords_functional(K, T)` returns exactly the K-permutations
      of the alphabet whose first T characters are letters and which contain a
      digit. */
  lemma {:induction false} FunctionalMembers(k: nat, t: nat)
    ensures forall p :: p in Functional(k, t) <==> IsKPermutation(p, k) && Valid(p, t)
  {
    forall p
      ensures p in Functional(k, t) <==> IsKPermutation(p, k) && Valid(p, t)
    {
      PermutationsMembers(LettersAndDigits, k, [], p);
      InKeep(ValidAt(t), Permutations(LettersAndDigits, k, []), p);
    }
  }

  // ---------------------------------------------------------------------
  // The two generators agree
  // ---------------------------------------------------------------------

  /** Below a partial password that respects the letter rule, pruning digits
      from the first T positions and testing for a digit at the end keeps the
      same passwords, in the same order, as filtering every permutation. */
  lemma {:induction false} CompletionsAreFiltered(k: nat, t: nat, path: string)
    requires LeadingLetters(path, t)
    ensures Completions(k, t, HasDigit, path) == Keep(ValidAt(t), Permutations(LettersAndDigits, k, path))
    decreases Remaining(LettersAndDigits, path), 1, 0, 0
  {
    if |path| == k {
      KeepSingleton(ValidAt(t), path);
    } else {
      AlphabetFacts();
      BranchesAreFiltered(k, t, path, |LettersAndDigits|);
    }
  }

  lemma {:induction false} BranchesAreFiltered(k: nat, t: nat, path: string, n: nat)
    requires LeadingLetters(path, t) && n <= |LettersAndDigits|
    ensures var m := if n <= |Candidates(t, |path|)| then n else |Candidates(t, |path|)|;
            Keep(ValidAt(t), PermutationBranches(LettersAndDigits, k, path, n)) == Branches(k, t, HasDigit, path, m)
    decreases Remaining(LettersAndDigits, path), 0, n, 1
  {
    var cands := Candidates(t, |path|);
    if n > 0 {
      var ch := LettersAndDigits[n - 1];
      var rest := PermutationBranches(LettersAndDigits, k, path, n - 1);
      var here := if ch in path then [] else Permutations(LettersAndDigits, k, path + [ch]);
      assert PermutationBranches(LettersAndDigits, k, path, n) == rest + here;
      assert Keep(ValidAt(t), rest + here) == Keep(ValidAt(t), rest) + Keep(ValidAt(t), here) by {
        KeepAppend(ValidAt(t), rest, here);
      }
      var m := if n - 1 <= |cands| then n - 1 else |cands|;
      assert Keep(ValidAt(t), rest) == Branches(k, t, HasDigit, path, m) by {
        BranchesAreFiltered(k, t, path, n - 1);
      }
      if n <= |cands| {
        OfferedCandidateIsFiltered(k, t, path, n);
      } else {
        // Only letter positions are pruned, so ch is a digit offered at a letter position.
        assert |path| < t && IsDigit(ch) by {
          AlphabetFacts();
        }
        DigitsAtLetterPositionsFail(k, t, path, ch);
      }
    }
  }

  /** The n-th candidate of the backtracking search is the n-th character of
      the alphabet, and what it contributes survives the filter unchanged. */
  lemma {:induction false} OfferedCandidateIsFiltered(k: nat, t: nat, path: string, n: nat)
    requires LeadingLetters(path, t) && 0 < n <= |Candidates(t, |path|)|
    ensures n <= |LettersAndDigits| && Candidates(t, |path|)[n - 1] == LettersAndDigits[n - 1]
    ensures var ch := LettersAndDigits[n - 1];
            Branches(k, t, HasDigit, path, n) ==
            Branches(k, t, HasDigit, path, n - 1) +
            Keep(ValidAt(t), if ch in path then [] else Permutations(LettersAndDigits, k, path + [ch]))
    decreases Remaining(LettersAndDigits, path), 0, n, 0
  {
    var cands := Candidates(t, |path|);
    assert n <= |LettersAndDigits| && cands[n - 1] == LettersAndDigits[n - 1] by {
      AlphabetFacts();
      if |path| < t {
        assert cands == LettersAndDigits[..52];
      }
    }
    var ch := LettersAndDigits[n - 1];
    if ch in path {
      assert Keep(ValidAt(t), []) == [];
    } else {
      assert LeadingLetters(path + [ch], t) by {
        if |path| < t {
          assert cands == Letters;
          MembershipTests(cands[n - 1]);
        }
      }
      RemainingShrinks(LettersAndDigits, path, ch);
      CompletionsAreFiltered(k, t, path + [ch]);
    }
  }

  /** A digit placed at one of the first T positions leads only to invalid permutations. */
  lemma {:induction false} DigitsAtLetterPositionsFail(k: nat, t: nat, path: string, ch: char)
    requires |path| < t && IsDigit(ch)
    ensures Keep(ValidAt(t), if ch in path then [] else Permutations(LettersAndDigits, k, path + [ch])) == []
  {
    if ch !in path {
      var here := Permutations(LettersAndDigits, k, path + [ch]);
      PermutationsExtend(LettersAndDigits, k, path + [ch]);
      forall i | 0 <= i < |here|
        ensures !ValidAt(t)(here[i])
      {
        var x := here[i];
        assert x[..|path| + 1] == path + [ch];
        assert x[|path|] == ch by {
          assert x[..|path| + 1][|path|] == x[|path|];
          assert (path + [ch])[|path|] == ch;
        }
        assert !IsLetter(x[|path|]);
      }
      KeepNone(ValidAt(t), here);
    } else {
      assert Keep(ValidAt(t), []) == [];
    }
  }

  /** Both generators return the same passwords in the same order. */
  lemma {:induction false} GeneratorsAgree(k: nat, t: nat)
    ensures Algorithmic(k, t) == Functional(k, t)
  {
    CompletionsAreFiltered(k, t, []);
  }

  /** `generate_passwords_algorithmic`: every emitted password has length K,
      distinct characters, letters in its first T positions and a digit; and
      every such password is emitted. */
  method GeneratePasswordsAlgorithmic(k: nat, t: nat) returns (result: seq<string>)
    ensures result == Algorithmic(k, t)
    ensures forall p :: p in result <==> IsKPermutation(p, k) && Valid(p, t)
  {
    var path, used;
    result, path, used := Backtrack(k, t, HasDigit, [], {}, 0, []);
    GeneratorsAgree(k, t);
    FunctionalMembers(k, t);
  }

  // ---------------------------------------------------------------------
  // The optimized generator and the fewest-uppercase choice
  // ---------------------------------------------------------------------

  /** `path[0] in string.ascii_uppercase` */
  predicate UpperFirst(p: string) {
    |p| > 0 && IsUpper(p[0])
  }

  /** The leaf test of `generate_optimized_passwords`: a digit, then an
      uppercase first character. */
  predicate AcceptOptimized(p: string) {
    HasDigit(p) && IsUpper(p[0])
  }

  /** The list `generate_optimized_passwords(K, T)` returns. */
  function Optimized(k: nat, t: nat): seq<string> {
    Completions(k, t, AcceptOptimized, [])
  }

  /** Testing one more condition at the leaves is filtering the search's output
      by it. */
  lemma {:induction false} StrongerLeafTestFilters(k: nat, t: nat, accept: string -> bool, stronger: string -> bool,
                                                   extra: string -> bool, path: string)
    requires forall p :: stronger(p) == (accept(p) && extra(p))
    ensures Completions(k, t, stronger, path) == Keep(extra, Completions(k, t, accept, path))
    decreases Remaining(LettersAndDigits, path), 1, 0
  {
    if |path| == k {
      KeepSingleton(extra, path);
      if !accept(path) {
        assert Keep(extra, []) == [];
      }
    } else {
      StrongerLeafTestFiltersBranches(k, t, accept, stronger, extra, path, |Candidates(t, |path|)|);
    }
  }

  lemma {:induction false} StrongerLeafTestFiltersBranches(k: nat, t: nat, accept: string -> bool,
                                                           stronger: string -> bool, extra: string -> bool,
                                                           path: string, n: nat)
    requires forall p :: stronger(p) == (accept(p) && extra(p))
    requires n <= |Candidates(t, |path|)|
    ensures Branches(k, t, stronger, path, n) == Keep(extra, Branches(k, t, accept, path, n))
    decreases Remaining(LettersAndDigits, path), 0, n
  {
    if n == 0 {
      assert Keep(extra, []) == [];
    } else {
      var ch := Candidates(t, |path|)[n - 1];
      var restA := Branches(k, t, accept, path, n - 1);
      var restS := Branches(k, t, stronger, path, n - 1);
      var hereA := if ch in path then [] else Completions(k, t, accept, path + [ch]);
      var hereS := if ch in path then [] else Completions(k, t, stronger, path + [ch]);
      assert Branches(k, t, accept, path, n) == restA + hereA;
      assert Branches(k, t, stronger, path, n) == restS + hereS;
      assert restS == Keep(extra, restA) by {
        StrongerLeafTestFiltersBranches(k, t, accept, stronger, extra, path, n - 1);
      }
      assert hereS == Keep(extra, hereA) by {
        if ch in path {
          assert Keep(extra, []) == [];
        } else {
          RemainingShrinks(LettersAndDigits, path, ch);
          StrongerLeafTestFilters(k, t, accept, stronger, extra, path + [ch]);
        }
      }
      assert Keep(extra, restA + hereA) == Keep(extra, restA) + Keep(extra, hereA) by {
        KeepAppend(extra, restA, hereA);
      }
    }
  }

  /** `generate_optimized_passwords(K, T)` is the algorithmic list with only the
      passwords that start with an uppercase letter, order preserved. */
  lemma {:induction false} OptimizedFiltersAlgorithmic(k: nat, t: nat)
    ensures Optimized(k, t) == Keep(UpperFirst, Algorithmic(k, t))
  {
    StrongerLeafTestFilters(k, t, HasDigit, AcceptOptimized, UpperFirst, []);
  }

  /** `generate_optimized_passwords`: the same backtracking with the stronger
      leaf test. */
  method GenerateOptimizedPasswords(k: nat, t: nat) returns (result: seq<string>)
    ensures result == Optimized(k, t)
    ensures forall p :: p in result <==> IsKPermutation(p, k) && Valid(p, t) && UpperFirst(p)
  {
    var path, used;
    result, path, used := Backtrack(k, t, AcceptOptimized, [], {}, 0, []);
    OptimizedMembers(k, t);
  }

  /** The optimized passwords are the valid K-permutations that start with an
      uppercase letter. */
  lemma {:induction false} OptimizedMembers(k: nat, t: nat)
    ensures forall p :: p in Optimized(k, t) <==> IsKPermutation(p, k) && Valid(p, t) && UpperFirst(p)
  {
    OptimizedFiltersAlgorithmic(k, t);
    GeneratorsAgree(k, t);
    FunctionalMembers(k, t);
    forall p
      ensures p in Optimized(k, t) <==> IsKPermutation(p, k) && Valid(p, t) && UpperFirst(p)
    {
      InKeep(UpperFirst, Algorithmic(k, t), p);
    }
  }

  /** `fewest_uppercase(pw)`: the number of uppercase characters of pw. */
  function CountUpper(pw: string): (n: nat)
    ensures n <= |pw|
    ensures n == 0 <==> forall i :: 0 <= i < |pw| ==> !IsUpper(pw[i])
    ensures n == |pw| <==> forall i :: 0 <= i < |pw| ==> IsUpper(pw[i])
  {
    if pw == [] then 0
    else CountUpper(pw[..|pw| - 1]) + (if IsUpper(pw[|pw| - 1]) then 1 else 0)
  }

  /** The count adds up over a concatenation. */
  lemma {:induction false} CountUpperAppend(a: string, b: string)
    ensures CountUpper(a + b) == CountUpper(a) + CountUpper(b)
    decreases |b|
  {
    if b == [] {
      assert a + b == a;
    } else {
      assert (a + b)[..|a + b| - 1] == a + b[..|b| - 1];
      CountUpperAppend(a, b[..|b| - 1]);
    }
  }

  /** `min(passwords, key=fewest_uppercase)`: the first password with the
      fewest uppercase characters; None where Python raises ValueError on an
      empty list. */
  method FewestUppercase(passwords: seq<string>) returns (best: Option<string>)
    ensures best.None? <==> passwords == []
    ensures best.Some? ==>
              exists i :: 0 <= i < |passwords| && passwords[i] == best.value &&
                (forall j :: 0 <= j < i ==> CountUpper(passwords[j]) > CountUpper(best.value))
    ensures best.Some? ==> forall j :: 0 <= j < |passwords| ==> CountUpper(best.value) <= CountUpper(passwords[j])
  {
    if passwords == [] {
      return None;
    }
    var b := 0;
    var i := 1;
    while i < |passwords|
      invariant 0 <= b < i <= |passwords|
      invariant forall j :: 0 <= j < i ==> CountUpper(passwords[b]) <= CountUpper(passwords[j])
      invariant forall j :: 0 <= j < b ==> CountUpper(passwords[j]) > CountUpper(passwords[b])
    {
      if CountUpper(passwords[i]) < CountUpper(passwords[b]) {
        b := i;
      }
      i := i + 1;
    }
    best := Some(passwords[b]);
  }

  /** Every optimized password has at least one uppercase character, its first. */
  lemma {:induction false} OptimizedHasUpper(k: nat, t: nat, p: string)
    requires p in Optimized(k, t)
    ensures CountUpper(p) >= 1
  {
    OptimizedFiltersAlgorithmic(k, t);
    InKeep(UpperFirst, Algorithmic(k, t), p);
    assert IsUpper(p[0]);
  }
}
