/** The Python string operations the arc-file parser relies on: `str.strip()`,
    `str.split(sep)` with a one-character separator, and `str.split()` with
    no argument. Whitespace is the ASCII part of what `str.isspace()` accepts. */
module Text {
  import Lists

  /** Space, \t, \n, \v, \f, \r and the separators \x1c..\x1f. */
  predicate IsSpace(c: char) {
    c == ' ' || 9 <= c as int <= 13 || 28 <= c as int <= 31
  }

  predicate NoSpace(s: string) {
    forall i :: 0 <= i < |s| ==> !IsSpace(s[i])
  }

  // ---------------------------------------------------------------------
  // strip
  // ---------------------------------------------------------------------

  /** The number of whitespace characters s starts with. */
  function LeadingSpaces(s: string): (n: nat)
    ensures n <= |s|
    ensures forall i :: 0 <= i < n ==> IsSpace(s[i])
    ensures n < |s| ==> !IsSpace(s[n])
  {
    if s == [] || !IsSpace(s[0]) then 0
    else 1 + LeadingSpaces(s[1..])
  }

  /** The number of whitespace characters s ends with. */
  function TrailingSpaces(s: string): (n: nat)
    ensures n <= |s|
    ensures forall i :: |s| - n <= i < |s| ==> IsSpace(s[i])
    ensures n < |s| ==> !IsSpace(s[|s| - n - 1])
  {
    if s == [] || !IsSpace(s[|s| - 1]) then 0
    else 1 + TrailingSpaces(s[..|s| - 1])
  }

  /** `s.strip()`: s without its leading and trailing whitespace. What is left
      is the piece of s after its leading whitespace, with only whitespace
      after it; it is empty exactly when s is all whitespace, and otherwise
      neither starts nor ends with whitespace. */
  function Strip(s: string): (r: string)
    ensures LeadingSpaces(s) + |r| <= |s|
    ensures r == s[LeadingSpaces(s)..LeadingSpaces(s) + |r|]
    ensures forall k :: LeadingSpaces(s) + |r| <= k < |s| ==> IsSpace(s[k])
    ensures r == [] <==> forall k :: 0 <= k < |s| ==> IsSpace(s[k])
    ensures r != [] ==> !IsSpace(r[0]) && !IsSpace(r[|r| - 1])
  {
    var i := LeadingSpaces(s);
    var rest := s[i..];
    var j := TrailingSpaces(rest);
    var r := s[i..|s| - j];
    assert forall k :: |s| - j <= k < |s| ==> IsSpace(s[k]) by {
      forall k | |s| - j <= k < |s|
        ensures IsSpace(s[k])
      {
        assert s[k] == rest[k - i];
      }
    }
    assert r != [] ==> r[|r| - 1] == rest[|rest| - j - 1];
    r
  }

  /** Stripping a stripped line changes nothing more. */
  lemma {:induction false} StripIdempotent(s: string)
    ensures Strip(Strip(s)) == Strip(s)
  {
    var r := Strip(s);
    if r != [] {
      assert LeadingSpaces(r) == 0;
      assert TrailingSpaces(r[0..]) == 0 by {
        assert r[0..] == r;
      }
      assert r[0..|r|] == r;
    }
  }

  /** A line that neither starts nor ends with whitespace is left as it is. */
  lemma {:induction false} StripUnchanged(s: string)
    requires s != [] && !IsSpace(s[0]) && !IsSpace(s[|s| - 1])
    ensures Strip(s) == s
  {
    assert LeadingSpaces(s) == 0;
    assert Strip(s) == s[0..|s|];
  }

  // ---------------------------------------------------------------------
  // split(sep)
  // ---------------------------------------------------------------------

  /** `sep.join(parts)` */
  function Join(parts: seq<string>, sep: char): string
    requires |parts| >= 1
  {
    if |parts| == 1 then parts[0]
    else parts[0] + [sep] + Join(parts[1..], sep)
  }

  /** The index of the first sep in s, or |s| when there is none. */
  function FindSep(s: string, sep: char): (i: nat)
    ensures i <= |s|
    ensures forall k :: 0 <= k < i ==> s[k] != sep
    ensures i < |s| ==> s[i] == sep
  {
    if s == [] || s[0] == sep then 0
    else 1 + FindSep(s[1..], sep)
  }

  /** `s.split(sep)`: the pieces of s between occurrences of sep, empty pieces
      included; there is always at least one. */
  function Split(s: string, sep: char): (parts: seq<string>)
    ensures |parts| >= 1
    decreases |s|
  {
    var i := FindSep(s, sep);
    if i == |s| then [s]
    else [s[..i]] + Split(s[i + 1..], sep)
  }

  /** No piece contains the separator. */
  lemma {:induction false} SplitPiecesHaveNoSep(s: string, sep: char)
    ensures forall k :: 0 <= k < |Split(s, sep)| ==> sep !in Split(s, sep)[k]
    decreases |s|
  {
    var i := FindSep(s, sep);
    if i < |s| {
      var rest := s[i + 1..];
      SplitPiecesHaveNoSep(rest, sep);
      assert Split(s, sep) == [s[..i]] + Split(rest, sep);
      forall k | 0 <= k < |Split(s, sep)|
        ensures sep !in Split(s, sep)[k]
      {
        if k > 0 {
          assert Split(s, sep)[k] == Split(rest, sep)[k - 1];
        }
      }
    }
  }

  lemma {:induction false} JoinCons(w: string, parts: seq<string>, sep: char)
    requires |parts| >= 1
    ensures Join([w] + parts, sep) == w + [sep] + Join(parts, sep)
  {
    assert ([w] + parts)[1..] == parts;
  }

  /** Joining the pieces with the separator gives back the line. */
  lemma {:induction false} JoinSplit(s: string, sep: char)
    ensures Join(Split(s, sep), sep) == s
    decreases |s|
  {
    var i := FindSep(s, sep);
    if i < |s| {
      var rest := s[i + 1..];
      assert Join(Split(rest, sep), sep) == rest by {
        JoinSplit(rest, sep);
      }
      JoinCons(s[..i], Split(rest, sep), sep);
      assert s == s[..i] + [sep] + rest;
    }
  }

  /** A character that is not the separator and occurs in no piece does not
      occur in the join. */
  lemma {:induction false} JoinAvoids(parts: seq<string>, sep: char, c: char)
    requires |parts| >= 1 && c != sep
    requires forall i :: 0 <= i < |parts| ==> c !in parts[i]
    ensures c !in Join(parts, sep)
    decreases |parts|
  {
    if |parts| > 1 {
      var rest := parts[1..];
      forall i | 0 <= i < |rest|
        ensures c !in rest[i]
      {
        assert rest[i] == parts[i + 1];
      }
      JoinAvoids(rest, sep, c);
      assert c !in parts[0];
    }
  }

  /** The first separator in a join is the one after the first piece. */
  lemma {:induction false} FindSepInJoin(w: string, t: string, sep: char)
    requires sep !in w
    ensures FindSep(w + [sep] + t, sep) == |w|
  {
    var j := w + [sep] + t;
    assert j[|w|] == sep;
  }

  /** Splitting a join of separator-free pieces gives back the pieces. */
  lemma {:induction false} SplitJoin(parts: seq<string>, sep: char)
    requires |parts| >= 1
    requires forall i :: 0 <= i < |parts| ==> sep !in parts[i]
    ensures Split(Join(parts, sep), sep) == parts
    decreases |parts|
  {
    var w := parts[0];
    if |parts| == 1 {
      assert sep !in w;
      assert parts == [w];
    } else {
      var rest := parts[1..];
      assert Split(Join(rest, sep), sep) == rest by {
        assert forall i :: 0 <= i < |rest| ==> sep !in rest[i] by {
          forall i | 0 <= i < |rest|
            ensures sep !in rest[i]
          {
            assert rest[i] == parts[i + 1];
          }
        }
        SplitJoin(rest, sep);
      }
      var j := w + [sep] + Join(rest, sep);
      assert Join(parts, sep) == j;
      assert FindSep(j, sep) == |w| by {
        FindSepInJoin(w, Join(rest, sep), sep);
      }
      assert j[..|w|] == w;
      assert j[|w| + 1..] == Join(rest, sep);
      Lists.HeadTail(parts);
    }
  }

  // ---------------------------------------------------------------------
  // split()
  // ---------------------------------------------------------------------

  /** The length of the longest prefix of s without whitespace. */
  function WordLength(s: string): (n: nat)
    ensures n <= |s|
    ensures forall i :: 0 <= i < n ==> !IsSpace(s[i])
    ensures n < |s| ==> IsSpace(s[n])
  {
    if s == [] || IsSpace(s[0]) then 0
    else 1 + WordLength(s[1..])
  }

  /** Where the first word of s ends, when s is not all whitespace: the word
      runs from LeadingSpaces(s) up to here and is followed by whitespace or
      by the end of s. */
  function WordEnd(s: string): (e: nat)
    requires LeadingSpaces(s) < |s|
    ensures LeadingSpaces(s) < e <= |s|
    ensures forall k :: LeadingSpaces(s) <= k < e ==> !IsSpace(s[k])
    ensures e < |s| ==> IsSpace(s[e])
  {
    var i := LeadingSpaces(s);
    var n := WordLength(s[i..]);
    assert s[i..][0] == s[i];
    assert forall k :: i <= k < i + n ==> s[k] == s[i..][k - i];
    assert i + n < |s| ==> s[i + n] == s[i..][n];
    i + n
  }

  /** `s.split()`: the maximal runs of non-whitespace characters of s, in order. */
  function Words(s: string): seq<string>
    decreases |s|
  {
    if LeadingSpaces(s) == |s| then []
    else [s[LeadingSpaces(s)..WordEnd(s)]] + Words(s[WordEnd(s)..])
  }

  /** Every word is a non-empty run without whitespace. */
  lemma {:induction false} WordsAreWords(s: string)
    ensures forall k :: 0 <= k < |Words(s)| ==> Words(s)[k] != [] && NoSpace(Words(s)[k])
    decreases |s|
  {
    if LeadingSpaces(s) < |s| {
      var w := s[LeadingSpaces(s)..WordEnd(s)];
      var rest := s[WordEnd(s)..];
      assert Words(s) == [w] + Words(rest);
      WordsAreWords(rest);
      forall k | 0 <= k < |Words(s)|
        ensures Words(s)[k] != [] && NoSpace(Words(s)[k])
      {
        if k > 0 {
          assert Words(s)[k] == Words(rest)[k - 1];
        } else {
          assert Words(s)[0] == w;
        }
      }
    }
  }

  /** The concatenation of a list of strings, `"".join(ws)`. */
  function Concat(ws: seq<string>): string {
    if ws == [] then [] else ws[0] + Concat(ws[1..])
  }

  /** The characters of s that are not whitespace, in order. */
  function NonSpace(s: string): string {
    if s == [] then []
    else (if IsSpace(s[0]) then [] else [s[0]]) + NonSpace(s[1..])
  }

  lemma {:induction false} NonSpaceAppend(a: string, b: string)
    ensures NonSpace(a + b) == NonSpace(a) + NonSpace(b)
    decreases |a|
  {
    if a == [] {
      assert a + b == b;
    } else {
      assert (a + b)[1..] == a[1..] + b;
      NonSpaceAppend(a[1..], b);
    }
  }

  lemma {:induction false} NonSpaceOfSpaces(s: string)
    requires forall i :: 0 <= i < |s| ==> IsSpace(s[i])
    ensures NonSpace(s) == []
    decreases |s|
  {
    if s != [] {
      NonSpaceOfSpaces(s[1..]);
    }
  }

  lemma {:induction false} NonSpaceOfWord(s: string)
    requires NoSpace(s)
    ensures NonSpace(s) == s
    decreases |s|
  {
    if s != [] {
      NonSpaceOfWord(s[1..]);
    }
  }

  lemma {:induction false} ConcatCons(w: string, ws: seq<string>)
    ensures Concat([w] + ws) == w + Concat(ws)
  {
    assert ([w] + ws)[1..] == ws;
  }

  /** Cutting s at m, where everything before m is whitespace (or nothing
      is), leaves the text of both pieces in order. */
  lemma {:induction false} NonSpaceCut(s: string, m: nat)
    requires m <= |s|
    ensures NonSpace(s) == NonSpace(s[..m]) + NonSpace(s[m..])
  {
    assert s == s[..m] + s[m..];
    NonSpaceAppend(s[..m], s[m..]);
  }

  /** The text of s is its first word followed by the text after that word. */
  lemma {:induction false} NonSpaceStep(s: string)
    requires LeadingSpaces(s) < |s|
    ensures NonSpace(s) == s[LeadingSpaces(s)..WordEnd(s)] + NonSpace(s[WordEnd(s)..])
  {
    var i := LeadingSpaces(s);
    var e := WordEnd(s);
    var t := s[i..];
    assert NonSpace(s) == NonSpace(t) by {
      NonSpaceCut(s, i);
      NonSpaceOfSpaces(s[..i]);
    }
    assert NonSpace(t) == t[..e - i] + NonSpace(t[e - i..]) by {
      NonSpaceCut(t, e - i);
      NonSpaceOfWord(t[..e - i]);
    }
    assert t[..e - i] == s[i..e];
    assert t[e - i..] == s[e..];
  }

  /** split() loses exactly the whitespace: the words, run together, are the
      non-whitespace characters of the line. */
  lemma {:induction false} WordsKeepAllText(s: string)
    ensures Concat(Words(s)) == NonSpace(s)
    decreases |s|
  {
    if LeadingSpaces(s) < |s| {
      var w := s[LeadingSpaces(s)..WordEnd(s)];
      var rest := s[WordEnd(s)..];
      assert Words(s) == [w] + Words(rest);
      NonSpaceStep(s);
      WordsKeepAllText(rest);
      ConcatCons(w, Words(rest));
    } else {
      NonSpaceOfSpaces(s);
    }
  }

  // ---------------------------------------------------------------------
  // split() finds maximal runs
  // ---------------------------------------------------------------------

  lemma {:induction false} WordLengthAppend(w: string, t: string)
    requires NoSpace(w) && (t == [] || IsSpace(t[0]))
    ensures WordLength(w + t) == |w|
    decreases |w|
  {
    if w == [] {
      assert w + t == t;
    } else {
      assert (w + t)[1..] == w[1..] + t;
      WordLengthAppend(w[1..], t);
    }
  }

  /** One step of split(): the first field, then the fields after it. */
  lemma {:induction false} WordsUnfold(s: string)
    requires LeadingSpaces(s) < |s|
    ensures Words(s) == [s[LeadingSpaces(s)..WordEnd(s)]] + Words(s[WordEnd(s)..])
  {
  }

  lemma {:induction false} WordsNone(s: string)
    requires LeadingSpaces(s) == |s|
    ensures Words(s) == []
  {
  }

  /** Two lines whose first fields and remainders agree split alike. */
  lemma {:induction false} WordsAlike(s: string, t: string)
    requires LeadingSpaces(s) < |s| && LeadingSpaces(t) < |t|
    requires s[LeadingSpaces(s)..WordEnd(s)] == t[LeadingSpaces(t)..WordEnd(t)]
    requires s[WordEnd(s)..] == t[WordEnd(t)..]
    ensures Words(s) == Words(t)
  {
    WordsUnfold(s);
    WordsUnfold(t);
  }

  /** Past a leading whitespace character, the first field ends one place
      later than it does in the rest of the line. */
  lemma {:induction false} WordEndDrop(s: string)
    requires s != [] && IsSpace(s[0])
    requires LeadingSpaces(s[1..]) < |s| - 1
    ensures LeadingSpaces(s) == 1 + LeadingSpaces(s[1..])
    ensures WordEnd(s) == 1 + WordEnd(s[1..])
  {
    var t := s[1..];
    assert s[1 + LeadingSpaces(t)..] == t[LeadingSpaces(t)..];
  }

  /** Whitespace in front of a line adds no field and changes none. */
  lemma {:induction false} WordsDropSpace(s: string)
    requires s != [] && IsSpace(s[0])
    ensures Words(s) == Words(s[1..])
  {
    var t := s[1..];
    assert LeadingSpaces(s) == 1 + LeadingSpaces(t);
    if LeadingSpaces(t) < |t| {
      WordEndDrop(s);
      assert s[LeadingSpaces(s)..WordEnd(s)] == t[LeadingSpaces(t)..WordEnd(t)];
      assert s[WordEnd(s)..] == t[WordEnd(t)..];
      WordsAlike(s, t);
    } else {
      WordsNone(s);
      WordsNone(t);
    }
  }

  /** A run of non-whitespace at the start of a line that is followed by
      whitespace or by the end of the line is one whole field: split() never
      cuts a run short and never joins it to the next one. */
  lemma {:induction false} WordsTakeWholeRun(w: string, t: string)
    requires w != [] && NoSpace(w) && (t == [] || IsSpace(t[0]))
    ensures Words(w + t) == [w] + Words(t)
  {
    var s := w + t;
    assert LeadingSpaces(s) == 0 by {
      assert s[0] == w[0];
    }
    assert s[0..] == s;
    WordLengthAppend(w, t);
    assert WordEnd(s) == |w|;
    assert s[0..|w|] == w;
    assert s[|w|..] == t;
  }

  /** Splitting a space-join of non-empty, whitespace-free fields on
      whitespace gives back the fields. */
  lemma {:induction false} WordsJoin(ws: seq<string>)
    requires |ws| >= 1
    requires forall k :: 0 <= k < |ws| ==> ws[k] != [] && NoSpace(ws[k])
    ensures Words(Join(ws, ' ')) == ws
    decreases |ws|
  {
    if |ws| == 1 {
      WordsTakeWholeRun(ws[0], []);
      assert ws[0] + [] == ws[0];
      assert Words([]) == [];
    } else {
      var rest := ws[1..];
      var j := Join(rest, ' ');
      assert Words(j) == rest by {
        assert forall k :: 0 <= k < |rest| ==> rest[k] == ws[k + 1];
        WordsJoin(rest);
      }
      assert Join(ws, ' ') == ws[0] + ([' '] + j);
      WordsTakeWholeRun(ws[0], [' '] + j);
      WordsDropSpace([' '] + j);
      assert ([' '] + j)[1..] == j;
      Lists.HeadTail(ws);
    }
  }
}
