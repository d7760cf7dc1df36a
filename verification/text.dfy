/** The Python string operations the server applies to command output and
    configuration lines: `str.strip()`, `str.strip(chars)`, `str.split(sep)`
    and the whitespace-splitting `str.split()`. */
module PyText {

  /** `str.isspace()` for one character: the ASCII whitespace characters,
      the information separators 0x1C-0x1F and the Unicode spaces. */
  predicate IsSpace(c: char) {
    var n := c as int;
    n == 0x20 || 0x09 <= n <= 0x0D || 0x1C <= n <= 0x1F || n == 0x85 || n == 0xA0
    || n == 0x1680 || 0x2000 <= n <= 0x200A || n == 0x2028 || n == 0x2029
    || n == 0x202F || n == 0x205F || n == 0x3000
  }

  /** Drops the longest prefix of `s` whose characters satisfy `drop`. */
  function TrimStart(s: string, drop: char -> bool): (r: string)
    ensures |r| <= |s| && r == s[|s| - |r|..]
    ensures forall i :: 0 <= i < |s| - |r| ==> drop(s[i])
    ensures r == [] || !drop(r[0])
  {
    if s != [] && drop(s[0]) then TrimStart(s[1..], drop) else s
  }

  /** Drops the longest suffix of `s` whose characters satisfy `drop`. */
  function TrimEnd(s: string, drop: char -> bool): (r: string)
    ensures |r| <= |s| && r == s[..|r|]
    ensures forall i :: |r| <= i < |s| ==> drop(s[i])
    ensures r == [] || !drop(r[|r| - 1])
  {
    if s != [] && drop(s[|s| - 1]) then TrimEnd(s[..|s| - 1], drop) else s
  }

  /** `s.strip()`: neither end of the result is whitespace. */
  function Strip(s: string): (r: string)
    ensures r == [] || (!IsSpace(r[0]) && !IsSpace(r[|r| - 1]))
  {
    TrimEnd(TrimStart(s, IsSpace), IsSpace)
  }

  /** `s.strip(c)` for a one-character argument: neither end of the result
      is `c`. */
  function StripChar(s: string, c: char): (r: string)
    ensures r == [] || (r[0] != c && r[|r| - 1] != c)
  {
    TrimEnd(TrimStart(s, x => x == c), x => x == c)
  }

  /** Trimming a prefix never removes a character `drop` rejects. */
  lemma {:induction false} TrimStartKeeps(s: string, drop: char -> bool, c: char)
    requires !drop(c)
    ensures c in TrimStart(s, drop) <==> c in s
  {
    if s != [] && drop(s[0]) {
      TrimStartKeeps(s[1..], drop, c);
      assert s == [s[0]] + s[1..];
    }
  }

  /** Trimming a suffix never removes a character `drop` rejects. */
  lemma {:induction false} TrimEndKeeps(s: string, drop: char -> bool, c: char)
    requires !drop(c)
    ensures c in TrimEnd(s, drop) <==> c in s
  {
    if s != [] && drop(s[|s| - 1]) {
      TrimEndKeeps(s[..|s| - 1], drop, c);
      assert s == s[..|s| - 1] + [s[|s| - 1]];
    }
  }

  /** `strip()` removes only whitespace, so a non-whitespace character is in
      the result exactly when it is in the input. */
  lemma StripKeeps(s: string, c: char)
    requires !IsSpace(c)
    ensures c in Strip(s) <==> c in s
  {
    TrimStartKeeps(s, IsSpace, c);
    TrimEndKeeps(TrimStart(s, IsSpace), IsSpace, c);
  }

  /** Trimming skips a leading run the predicate accepts and stops at the
      first character it rejects. */
  lemma {:induction false} TrimStartSkips(a: string, rest: string, drop: char -> bool)
    requires forall i :: 0 <= i < |a| ==> drop(a[i])
    requires rest == [] || !drop(rest[0])
    ensures TrimStart(a + rest, drop) == rest
  {
    if a == [] {
      assert a + rest == rest;
    } else {
      assert (a + rest)[1..] == a[1..] + rest;
      TrimStartSkips(a[1..], rest, drop);
    }
  }

  /** Trimming skips a trailing run the predicate accepts and stops at the
      last character it rejects. */
  lemma {:induction false} TrimEndSkips(rest: string, b: string, drop: char -> bool)
    requires forall i :: 0 <= i < |b| ==> drop(b[i])
    requires rest == [] || !drop(rest[|rest| - 1])
    ensures TrimEnd(rest + b, drop) == rest
  {
    if b == [] {
      assert rest + b == rest;
    } else {
      var n := |rest + b|;
      assert (rest + b)[..n - 1] == rest + b[..|b| - 1];
      TrimEndSkips(rest, b[..|b| - 1], drop);
    }
  }

  /** Surrounding whitespace does not survive `strip()`, and a word with
      non-whitespace ends comes out unchanged. */
  lemma StripAround(a: string, w: string, b: string)
    requires forall i :: 0 <= i < |a| ==> IsSpace(a[i])
    requires forall i :: 0 <= i < |b| ==> IsSpace(b[i])
    requires w == [] || (!IsSpace(w[0]) && !IsSpace(w[|w| - 1]))
    ensures Strip(a + w + b) == w
  {
    assert a + w + b == a + (w + b);
    if w == [] {
      assert w + b == b;
      TrimStartSkips(a + b, [], IsSpace);
      assert a + b + [] == a + b;
    } else {
      TrimStartSkips(a, w + b, IsSpace);
    }
    TrimEndSkips(w, b, IsSpace);
  }

  // ---------------------------------------------------------------------
  // s.split(sep)

  /** `s.split(sep)`: the pieces between consecutive separators, empty
      pieces included, so there is always at least one. */
  function Split(s: string, sep: char): (parts: seq<string>)
    ensures |parts| >= 1
    ensures forall i :: 0 <= i < |parts| ==> sep !in parts[i]
  {
    if s == [] then [[]]
    else
      var rest := Split(s[1..], sep);
      if s[0] == sep then [[]] + rest
      else [[s[0]] + rest[0]] + rest[1..]
  }

  /** `sep.join(parts)`. */
  function Join(parts: seq<string>, sep: char): string
    requires |parts| >= 1
  {
    if |parts| == 1 then parts[0] else parts[0] + [sep] + Join(parts[1..], sep)
  }

  /** Joining the pieces with the separator gives back the input. */
  lemma {:induction false} JoinSplit(s: string, sep: char)
    ensures Join(Split(s, sep), sep) == s
  {
    if s != [] {
      var rest := Split(s[1..], sep);
      JoinSplit(s[1..], sep);
      if s[0] == sep {
        assert Split(s, sep)[1..] == rest;
      } else {
        var parts := Split(s, sep);
        if |rest| == 1 {
          assert parts == [[s[0]] + rest[0]];
        } else {
          assert parts[1..] == rest[1..];
          assert Join(rest, sep) == rest[0] + [sep] + Join(rest[1..], sep);
        }
      }
    }
  }

  /** Splitting a join of separator-free pieces gives back the pieces, so
      Split and Join are inverse to each other. */
  lemma {:induction false} SplitJoin(parts: seq<string>, sep: char)
    requires |parts| >= 1
    requires forall i :: 0 <= i < |parts| ==> sep !in parts[i]
    ensures Split(Join(parts, sep), sep) == parts
  {
    if |parts| == 1 {
      SplitPiece(parts[0], [], sep);
      assert parts[0] + [] == parts[0];
      var q: seq<string> := [[]];
      assert q[1..] == [];
      assert [parts[0] + []] + [] == parts;
    } else {
      SplitJoin(parts[1..], sep);
      var tail := Join(parts[1..], sep);
      SplitPiece(parts[0], [sep] + tail, sep);
      assert parts[0] + [sep] + tail == parts[0] + ([sep] + tail);
      assert ([sep] + tail)[1..] == tail;
      var q := [[]] + Split(tail, sep);
      assert q[0] == [] && q[1..] == parts[1..];
      assert parts[0] + q[0] == parts[0];
      assert [parts[0]] + parts[1..] == parts;
    }
  }

  /** Splitting `w + rest`, where `w` has no separator and `rest` is empty or
      starts with one, puts `w` in front of the first piece of `rest`. */
  lemma {:induction false} SplitPiece(w: string, rest: string, sep: char)
    requires sep !in w
    requires rest == [] || rest[0] == sep
    ensures var p := Split(w + rest, sep);
            var q := if rest == [] then [[]] else [[]] + Split(rest[1..], sep);
            p == [w + q[0]] + q[1..]
  {
    if w != [] {
      SplitPiece(w[1..], rest, sep);
      var q := if rest == [] then [[]] else [[]] + Split(rest[1..], sep);
      var r := Split(w[1..] + rest, sep);
      assert (w + rest)[1..] == w[1..] + rest;
      assert (w + rest)[0] == w[0] && w[0] != sep;
      assert Split(w + rest, sep) == [[w[0]] + r[0]] + r[1..];
      assert r[0] == w[1..] + q[0] && r[1..] == q[1..];
      assert [w[0]] + (w[1..] + q[0]) == w + q[0];
    } else if rest == [] {
      assert w + rest == [];
    } else {
      var q := [[]] + Split(rest[1..], sep);
      assert w + rest == rest;
      assert Split(rest, sep) == q;
      assert q[0] == [] && w + q[0] == [];
      assert q == [q[0]] + q[1..];
    }
  }

  // ---------------------------------------------------------------------
  // s.split()

  /** `s.split()`: the maximal runs of non-whitespace characters, in order. */
  function Words(s: string): (r: seq<string>)
    ensures forall i :: 0 <= i < |r| ==> r[i] != [] && forall c :: c in r[i] ==> !IsSpace(c)
    ensures s != [] && !IsSpace(s[0]) ==> |r| > 0 && r[0][0] == s[0]
  {
    if s == [] then []
    else
      var rest := Words(s[1..]);
      if IsSpace(s[0]) then rest
      else if |s| > 1 && !IsSpace(s[1]) then [[s[0]] + rest[0]] + rest[1..]
      else [[s[0]]] + rest
  }

  /** Leading whitespace yields no word. */
  lemma {:induction false} WordsSkipSpace(a: string, rest: string)
    requires forall i :: 0 <= i < |a| ==> IsSpace(a[i])
    ensures Words(a + rest) == Words(rest)
  {
    if a == [] {
      assert a + rest == rest;
    } else {
      assert (a + rest)[1..] == a[1..] + rest;
      WordsSkipSpace(a[1..], rest);
    }
  }

  /** A run of non-whitespace that ends at whitespace or at the end of the
      string is one whole word. */
  lemma {:induction false} WordsRun(w: string, b: string)
    requires w != [] && forall i :: 0 <= i < |w| ==> !IsSpace(w[i])
    requires b == [] || IsSpace(b[0])
    ensures Words(w + b) == [w] + Words(b)
  {
    var s := w + b;
    assert s[1..] == w[1..] + b;
    if |w| == 1 {
      assert w[1..] + b == b;
      assert [w[0]] == w;
    } else {
      WordsRun(w[1..], b);
      assert s[1] == w[1];
      assert [w[0]] + w[1..] == w;
    }
  }

  /** The words are exactly the maximal runs of non-whitespace: after any
      whitespace, the whole run `w` that follows, up to the next whitespace
      or the end, is the next word, and splitting goes on after it. */
  lemma WordsMaximal(a: string, w: string, b: string)
    requires forall i :: 0 <= i < |a| ==> IsSpace(a[i])
    requires w != [] && forall i :: 0 <= i < |w| ==> !IsSpace(w[i])
    requires b == [] || IsSpace(b[0])
    ensures Words(a + w + b) == [w] + Words(b)
  {
    assert a + w + b == a + (w + b);
    WordsSkipSpace(a, w + b);
    WordsRun(w, b);
  }

  /** The non-whitespace characters of `s`, in order. */
  function NonSpace(s: string): string {
    if s == [] then [] else (if IsSpace(s[0]) then [] else [s[0]]) + NonSpace(s[1..])
  }

  function Concat(ws: seq<string>): string {
    if ws == [] then [] else ws[0] + Concat(ws[1..])
  }

  /** The words hold every non-whitespace character of `s` and nothing else,
      in order: `split()` only removes whitespace. */
  lemma {:induction false} WordsCover(s: string)
    ensures Concat(Words(s)) == NonSpace(s)
  {
    if s != [] {
      WordsCover(s[1..]);
      var rest := Words(s[1..]);
      if !IsSpace(s[0]) && |s| > 1 && !IsSpace(s[1]) {
        var r := Words(s);
        assert r[0] == [s[0]] + rest[0];
        assert r[1..] == rest[1..];
        assert Concat(rest) == rest[0] + Concat(rest[1..]);
      } else if !IsSpace(s[0]) {
        assert Words(s)[1..] == rest;
      }
    }
  }

  /** Number of positions where a word begins: a non-whitespace character at
      the start of `s` or right after whitespace. */
  function WordStarts(s: string, prevSpace: bool): nat {
    if s == [] then 0
    else (if prevSpace && !IsSpace(s[0]) then 1 else 0) + WordStarts(s[1..], IsSpace(s[0]))
  }

  /** There is one word per word start, so adjacent words were separated by
      whitespace in `s` and no run of non-whitespace was cut. */
  lemma {:induction false} WordsCount(s: string)
    ensures |Words(s)| == WordStarts(s, true)
  {
    if s != [] {
      WordsCount(s[1..]);
      if |s| > 1 && !IsSpace(s[0]) && !IsSpace(s[1]) {
        NoStartAfterWord(s[1..]);
      } else if |s| > 1 && !IsSpace(s[0]) {
        assert WordStarts(s[1..], false) == WordStarts(s[1..], true);
      }
    }
  }

  lemma {:induction false} NoStartAfterWord(s: string)
    requires s != [] && !IsSpace(s[0])
    ensures WordStarts(s, false) + 1 == WordStarts(s, true)
  {
  }
}
