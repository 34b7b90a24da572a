/** The pieces of Python's string library that the agenda relies on:
    `str.isspace`, `str.strip`, `str.split()` (on whitespace runs),
    `str.split(sep)`, `sep.join(...)` and `int(...)` on a decimal token. */
module Text {
  import opened Wrappers

  /** The characters Python's `str.isspace` accepts; `split()` and `strip()` use the same set. */
  predicate IsSpace(c: char) {
    || c == ' '
    || '\t' <= c <= '\r'
    || '\U{1c}' <= c <= '\U{1f}'
    || c == '\U{85}' || c == '\U{a0}' || c == '\U{1680}'
    || '\U{2000}' <= c <= '\U{200a}'
    || c == '\U{2028}' || c == '\U{2029}' || c == '\U{202f}' || c == '\U{205f}' || c == '\U{3000}'
  }

  predicate NoSpace(s: string) {
    forall i :: 0 <= i < |s| ==> !IsSpace(s[i])
  }

  predicate AllSpace(s: string) {
    forall i :: 0 <= i < |s| ==> IsSpace(s[i])
  }

  /** Some character of `s` is not whitespace. */
  predicate HasInk(s: string) {
    exists i :: 0 <= i < |s| && !IsSpace(s[i])
  }

  /** `s.lstrip()`: drops the leading whitespace and nothing else. */
  function TrimLeft(s: string): (r: string)
    ensures |r| <= |s| && r == s[|s| - |r|..]
    ensures AllSpace(s[..|s| - |r|])
    ensures r == [] || !IsSpace(r[0])
    decreases |s|
  {
    if |s| > 0 && IsSpace(s[0]) then
      var r := TrimLeft(s[1..]);
      assert s[..|s| - |r|] == [s[0]] + s[1..][..|s| - 1 - |r|];
      r
    else s
  }

  /** `s.rstrip()`: drops the trailing whitespace and nothing else. */
  function TrimRight(s: string): (r: string)
    ensures |r| <= |s| && r == s[..|r|]
    ensures AllSpace(s[|r|..])
    ensures r == [] || !IsSpace(r[|r| - 1])
    decreases |s|
  {
    if |s| > 0 && IsSpace(s[|s| - 1]) then TrimRight(s[..|s| - 1]) else s
  }

  /** `s.strip()` */
  function Strip(s: string): string {
    TrimRight(TrimLeft(s))
  }

  /** The maximal run of non-whitespace characters at the front of `s`. */
  function Word(s: string): (w: string)
    ensures |w| <= |s| && w == s[..|w|]
    ensures NoSpace(w)
    ensures |w| == |s| || IsSpace(s[|w|])
  {
    if s == [] || IsSpace(s[0]) then [] else [s[0]] + Word(s[1..])
  }

  /** `s.split()`: the maximal runs of non-whitespace characters, in order. */
  function SplitWs(s: string): (ws: seq<string>)
    ensures forall i :: 0 <= i < |ws| ==> ws[i] != [] && NoSpace(ws[i])
    decreases |s|
  {
    if s == [] then []
    else if IsSpace(s[0]) then SplitWs(s[1..])
    else var w := Word(s); [w] + SplitWs(s[|w|..])
  }

  /** `sep.join(ws)` */
  function Join(ws: seq<string>, sep: string): string {
    if ws == [] then []
    else if |ws| == 1 then ws[0]
    else ws[0] + sep + Join(ws[1..], sep)
  }

  /** `s.split(sep)` for a non-empty separator: cuts at every leftmost,
      non-overlapping occurrence of `sep`. Joining the pieces gives `s` back. */
  function Split(s: string, sep: string): (pieces: seq<string>)
    requires sep != []
    ensures |pieces| >= 1
    ensures Join(pieces, sep) == s
    decreases |s|
  {
    if |s| < |sep| then [s]
    else if s[..|sep|] == sep then
      var rest := Split(s[|sep|..], sep);
      assert s == [] + sep + Join(rest, sep);
      [[]] + rest
    else
      var rest := Split(s[1..], sep);
      var first := [s[0]] + rest[0];
      assert |rest| == 1 ==> s == [s[0]] + Join(rest, sep);
      assert |rest| > 1 ==> Join(rest, sep) == rest[0] + sep + Join(rest[1..], sep);
      assert |rest| > 1 ==> s == first + sep + Join(rest[1..], sep);
      [first] + rest[1..]
  }

  /** No occurrence of `sep` starts inside `b`, even one running on into a
      following `sep`. */
  predicate CutsCleanly(b: string, sep: string) {
    NoneBefore(b + sep, sep, |b|)
  }

  /** `sep` occurs in `t` at index `i`. */
  predicate OccursAt(t: string, i: int, sep: string) {
    0 <= i && i + |sep| <= |t| && t[i..i + |sep|] == sep
  }

  /** No occurrence of `sep` in `t` starts before index `n`. */
  predicate NoneBefore(t: string, sep: string, n: int) {
    forall i :: 0 <= i < n ==> !OccursAt(t, i, sep)
  }

  lemma {:induction false} SplitFirst(b: string, sep: string, rest: string)
    requires sep != [] && CutsCleanly(b, sep)
    ensures Split(b + sep + rest, sep) == [b] + Split(rest, sep)
    decreases |b|
  {
    var s := b + sep + rest;
    if b == [] {
      assert s[..|sep|] == sep && s[|sep|..] == rest;
    } else {
      assert !OccursAt(b + sep, 0, sep);
      assert s[..|sep|] == (b + sep)[0..0 + |sep|];
      assert s[1..] == b[1..] + sep + rest;
      ShiftCutsCleanly(b, sep);
      SplitFirst(b[1..], sep, rest);
      assert [s[0]] + b[1..] == b;
    }
  }

  lemma {:induction false} SplitLast(b: string, sep: string)
    requires sep != [] && CutsCleanly(b, sep)
    ensures Split(b, sep) == [b]
    decreases |b|
  {
    if |b| >= |sep| {
      assert !OccursAt(b + sep, 0, sep);
      assert b[..|sep|] == (b + sep)[0..0 + |sep|];
      ShiftCutsCleanly(b, sep);
      SplitLast(b[1..], sep);
      assert [b[0]] + b[1..] == b;
    }
  }

  lemma ShiftCutsCleanly(b: string, sep: string)
    requires b != [] && CutsCleanly(b, sep)
    ensures CutsCleanly(b[1..], sep)
  {
    forall i | 0 <= i < |b[1..]| ensures !OccursAt(b[1..] + sep, i, sep) {
      assert !OccursAt(b + sep, i + 1, sep);
      if i + |sep| <= |b[1..] + sep| {
        assert (b[1..] + sep)[i..i + |sep|] == (b + sep)[i + 1..i + 1 + |sep|];
      }
    }
  }

  /** Splitting undoes joining when no piece lets `sep` start inside it. */
  lemma {:induction false} SplitJoin(bs: seq<string>, sep: string)
    requires sep != [] && |bs| >= 1
    requires forall k :: 0 <= k < |bs| ==> CutsCleanly(bs[k], sep)
    ensures Split(Join(bs, sep), sep) == bs
  {
    if |bs| == 1 {
      SplitLast(bs[0], sep);
    } else {
      SplitJoin(bs[1..], sep);
      SplitFirst(bs[0], sep, Join(bs[1..], sep));
    }
  }

  /** A string without `c` cuts cleanly at the one-character separator `[c]`. */
  lemma CharFreeCutsCleanly(b: string, c: char)
    requires forall i :: 0 <= i < |b| ==> b[i] != c
    ensures CutsCleanly(b, [c])
  {
    forall i | 0 <= i < |b| ensures !OccursAt(b + [c], i, [c]) {
      assert (b + [c])[i..i + 1] == [b[i]];
    }
  }

  /** `b` holds no empty line: no two newlines in a row and no newline at its end. */
  predicate NoBlankLine(b: string) {
    && (forall i :: 0 <= i < |b| - 1 ==> !BlankAt(b, i))
    && (|b| > 0 ==> b[|b| - 1] != '\n')
  }

  /** `b[i]` and `b[i + 1]` are both newlines. */
  predicate BlankAt(b: string, i: int) {
    0 <= i < |b| - 1 && b[i] == '\n' && b[i + 1] == '\n'
  }

  lemma NoBlankLineCutsCleanly(b: string)
    requires NoBlankLine(b)
    ensures CutsCleanly(b, "\n\n")
  {
    forall i | 0 <= i < |b| ensures !OccursAt(b + "\n\n", i, "\n\n") {
      if i < |b| - 1 {
        assert !BlankAt(b, i);
        assert (b + "\n\n")[i..i + 2] == [b[i], b[i + 1]];
      } else {
        assert (b + "\n\n")[i..i + 2] == [b[i], '\n'];
      }
    }
  }

  /** Lines that are non-empty and hold no newline, joined by newlines, hold no empty line. */
  lemma {:induction false} JoinLinesNoBlankLine(ls: seq<string>)
    requires |ls| >= 1
    requires forall k :: 0 <= k < |ls| ==> ls[k] != [] && '\n' !in ls[k]
    ensures NoBlankLine(Join(ls, "\n"))
  {
    if |ls| > 1 {
      JoinLinesNoBlankLine(ls[1..]);
      var x, y := ls[0], Join(ls[1..], "\n");
      var s := x + "\n" + y;
      assert y != [] by { assert |ls[1..]| >= 1 && ls[1..][0] != []; JoinStartsWithFirst(ls[1..], "\n"); }
      assert y[0] != '\n' by { JoinStartsWithFirst(ls[1..], "\n"); assert y[0] == ls[1][0]; assert ls[1][0] in ls[1]; }
      forall i | 0 <= i < |s| - 1 ensures !BlankAt(s, i) {
        if i < |x| - 1 {
          assert s[i] == x[i] && x[i] in x;
        } else if i == |x| - 1 {
          assert s[i] == x[i] && x[i] in x;
        } else if i == |x| {
          assert s[i + 1] == y[0];
        } else {
          assert s[i] == y[i - |x| - 1] && s[i + 1] == y[i - |x|];
          assert !BlankAt(y, i - |x| - 1);
        }
      }
    } else {
      var x := ls[0];
      forall i | 0 <= i < |x| ensures x[i] != '\n' { assert x[i] in x; }
    }
  }

  lemma {:induction false} JoinStartsWithFirst(ws: seq<string>, sep: string)
    requires |ws| >= 1
    ensures |Join(ws, sep)| >= |ws[0]| && Join(ws, sep)[..|ws[0]|] == ws[0]
  {
    if |ws| > 1 {
      assert Join(ws, sep) == ws[0] + (sep + Join(ws[1..], sep));
    }
  }

  /** The last piece of a join of two or more pieces. */
  lemma {:induction false} JoinLast(ws: seq<string>, sep: string)
    requires |ws| >= 2
    ensures Join(ws, sep) == Join(ws[..|ws| - 1], sep) + sep + ws[|ws| - 1]
    decreases |ws|
  {
    if |ws| > 2 {
      JoinLast(ws[1..], sep);
      assert ws[1..][..|ws[1..]| - 1] == ws[..|ws| - 1][1..];
    }
  }

  /** Trimming a string whose tail has a visible character only trims that tail. */
  lemma {:induction false} TrimRightAppend(x: string, y: string)
    requires HasInk(y)
    ensures TrimRight(x + y) == x + TrimRight(y)
    decreases |y|
  {
    if IsSpace(y[|y| - 1]) {
      var k :| 0 <= k < |y| && !IsSpace(y[k]);
      assert k < |y| - 1;
      assert y[..|y| - 1][k] == y[k];
      assert (x + y)[..|x + y| - 1] == x + y[..|y| - 1];
      TrimRightAppend(x, y[..|y| - 1]);
    }
  }

  /** Trailing whitespace makes no difference to `rstrip()`. */
  lemma {:induction false} TrimRightSpaces(x: string, w: string)
    requires AllSpace(w)
    ensures TrimRight(x + w) == TrimRight(x)
    decreases |w|
  {
    if w != [] {
      assert (x + w)[..|x + w| - 1] == x + w[..|w| - 1];
      TrimRightSpaces(x, w[..|w| - 1]);
    } else {
      assert x + w == x;
    }
  }

  /** `strip()` is idempotent. */
  lemma StripStripped(x: string)
    ensures Strip(Strip(x)) == Strip(x)
  {
    var t := TrimLeft(x);
    var s := TrimRight(t);
    if s != [] {
      assert s[0] == t[0];
      assert TrimLeft(s) == s;
      assert TrimRight(s) == s;
    }
  }

  /** `rstrip` of the last piece of a join is the `rstrip` of the join, when that
      piece has a visible character. */
  lemma TrimRightJoin(ws: seq<string>, sep: string)
    requires |ws| >= 1 && HasInk(ws[|ws| - 1])
    ensures TrimRight(Join(ws, sep)) == Join(ws[..|ws| - 1] + [TrimRight(ws[|ws| - 1])], sep)
  {
    var n := |ws|;
    if n >= 2 {
      JoinLast(ws, sep);
      TrimRightAppend(Join(ws[..n - 1], sep) + sep, ws[n - 1]);
      var ws' := ws[..n - 1] + [TrimRight(ws[n - 1])];
      JoinLast(ws', sep);
      assert ws'[..n - 1] == ws[..n - 1];
    }
  }

  /** `rstrip()` of a first piece followed by more pieces, the last with a visible
      character, trims only that last piece. */
  lemma TrimRightJoinTail(r: string, ls: seq<string>, sep: string)
    requires |ls| >= 1 && HasInk(ls[|ls| - 1])
    ensures TrimRight(Join([r] + ls, sep)) == Join([r] + (ls[..|ls| - 1] + [TrimRight(ls[|ls| - 1])]), sep)
  {
    var ws := [r] + ls;
    assert ws[|ws| - 1] == ls[|ls| - 1];
    TrimRightJoin(ws, sep);
    assert ws[..|ws| - 1] + [TrimRight(ws[|ws| - 1])] == [r] + (ls[..|ls| - 1] + [TrimRight(ls[|ls| - 1])]);
  }

  /** A text that starts with a visible character has no leading whitespace to strip. */
  lemma TrimLeftInked(x: string)
    requires x != [] && !IsSpace(x[0])
    ensures TrimLeft(x) == x
  {
  }

  /** `strip()` of pieces joined and ended by a whitespace separator, when the first
      piece starts with a visible character and the last has one: only the last piece
      loses its trailing whitespace. */
  lemma StripJoinEnded(ws: seq<string>, sep: string)
    requires |ws| >= 1 && ws[0] != [] && !IsSpace(ws[0][0]) && HasInk(ws[|ws| - 1])
    requires AllSpace(sep)
    ensures Strip(Join(ws, sep) + sep) == Join(ws[..|ws| - 1] + [TrimRight(ws[|ws| - 1])], sep)
  {
    var x := Join(ws, sep);
    JoinStartsWithFirst(ws, sep);
    assert (x + sep)[0] == x[0] == ws[0][0];
    TrimLeftInked(x + sep);
    TrimRightSpaces(x, sep);
    TrimRightJoin(ws, sep);
  }

  /** Whitespace at the end of a string adds no word to its `split()`. */
  lemma {:induction false} SplitWsSpaces(x: string, w: string)
    requires AllSpace(w)
    ensures SplitWs(x + w) == SplitWs(x)
    decreases |x| + |w|
  {
    if x == [] {
      assert x + w == w;
      if w != [] {
        SplitWsSpaces(x, w[1..]);
        assert x + w[1..] == w[1..];
      }
    } else if IsSpace(x[0]) {
      assert (x + w)[1..] == x[1..] + w;
      SplitWsSpaces(x[1..], w);
    } else {
      WordAppendSpaces(x, w);
      var v := Word(x);
      assert (x + w)[|v|..] == x[|v|..] + w;
      SplitWsSpaces(x[|v|..], w);
    }
  }

  lemma {:induction false} WordAppendSpaces(x: string, w: string)
    requires AllSpace(w)
    ensures Word(x + w) == Word(x)
    decreases |x|
  {
    if x == [] {
      assert x + w == w;
    } else if !IsSpace(x[0]) {
      assert (x + w)[1..] == x[1..] + w;
      WordAppendSpaces(x[1..], w);
    }
  }

  /** `split()` of a string with its trailing whitespace removed is unchanged. */
  lemma SplitWsTrimRight(s: string)
    ensures SplitWs(TrimRight(s)) == SplitWs(s)
  {
    var r := TrimRight(s);
    assert s == r + s[|r|..];
    SplitWsSpaces(r, s[|r|..]);
  }

  /** A word followed by whitespace (or nothing) is the first piece of `split()`. */
  lemma {:induction false} SplitWsLeadingWord(w: string, s: string)
    requires w != [] && NoSpace(w)
    requires s == [] || IsSpace(s[0])
    ensures SplitWs(w + s) == [w] + SplitWs(s)
  {
    WordOfWord(w, s);
    assert (w + s)[|w|..] == s;
  }

  lemma {:induction false} WordOfWord(w: string, s: string)
    requires NoSpace(w)
    requires s == [] || IsSpace(s[0])
    ensures Word(w + s) == w
    decreases |w|
  {
    if w == [] {
      assert w + s == s;
    } else {
      assert (w + s)[1..] == w[1..] + s;
      WordOfWord(w[1..], s);
    }
  }

  /** A description as the command line builds it: words joined by single spaces,
      so `' '.join(d.split()) == d`. */
  predicate Normalized(d: string) {
    Join(SplitWs(d), " ") == d
  }

  lemma {:induction false} JoinNoNewline(ws: seq<string>)
    requires forall k :: 0 <= k < |ws| ==> '\n' !in ws[k]
    ensures '\n' !in Join(ws, " ")
  {
    if |ws| > 1 {
      JoinNoNewline(ws[1..]);
    }
  }

  /** A normalized description holds no newline, so it stays on one line of the file. */
  lemma NormalizedNoNewline(d: string)
    requires Normalized(d)
    ensures '\n' !in d
  {
    var ws := SplitWs(d);
    forall k | 0 <= k < |ws| ensures '\n' !in ws[k] {
      assert NoSpace(ws[k]) && IsSpace('\n');
    }
    JoinNoNewline(ws);
  }

  /** Each piece is a non-empty run of non-whitespace characters, as `split()` gives them. */
  predicate Words(ws: seq<string>) {
    forall k :: 0 <= k < |ws| ==> ws[k] != [] && NoSpace(ws[k])
  }

  /** `split()` of words joined by single spaces gives the words back. */
  lemma {:induction false} SplitWsJoin(ws: seq<string>)
    requires Words(ws)
    ensures SplitWs(Join(ws, " ")) == ws
  {
    if |ws| == 1 {
      SplitWsLeadingWord(ws[0], "");
      assert ws[0] + "" == ws[0];
    } else if |ws| > 1 {
      SplitWsJoin(ws[1..]);
      SplitWsSpaced(ws[0], Join(ws[1..], " "));
      assert ws == [ws[0]] + ws[1..];
    }
  }

  /** A word, one space, then more text: the word comes first, then the words of the rest. */
  lemma SplitWsSpaced(w: string, rest: string)
    requires w != [] && NoSpace(w)
    ensures SplitWs(w + " " + rest) == [w] + SplitWs(rest)
  {
    assert w + " " + rest == w + (" " + rest);
    SplitWsLeadingWord(w, " " + rest);
    assert (" " + rest)[1..] == rest;
  }

  /** Words joined by single spaces make a normalized description. */
  lemma JoinedWordsNormalized(ws: seq<string>)
    requires Words(ws)
    ensures Normalized(Join(ws, " "))
  {
    SplitWsJoin(ws);
  }

  /** Concatenation regroups; stated once so that long concatenations can be
      regrouped one step at a time. */
  lemma AppendAssoc(x: string, y: string, z: string)
    ensures (x + y) + z == x + (y + z)
  {
  }

  /** The text of `s` before the first `c`, or all of `s` when `c` does not occur. */
  function UpTo(s: string, c: char): (r: string)
    ensures |r| <= |s| && r == s[..|r|] && c !in r
    ensures |r| < |s| ==> s[|r|] == c
    ensures c !in s ==> r == s
  {
    if s == [] || s[0] == c then [] else [s[0]] + UpTo(s[1..], c)
  }

  /** `s.split(c)` starts with the text before the first `c`; when `c` occurs, the
      remaining pieces are those of the text after it. */
  lemma {:induction false} SplitAtChar(s: string, c: char)
    ensures Split(s, [c])[0] == UpTo(s, c)
    ensures c in s ==> |UpTo(s, c)| < |s| && Split(s, [c]) == [UpTo(s, c)] + Split(s[|UpTo(s, c)| + 1..], [c])
    decreases |s|
  {
    if s == [] {
      assert Split(s, [c]) == [s];
    } else if s[0] == c {
      assert s[..1] == [c];
      assert Split(s, [c]) == [[]] + Split(s[1..], [c]);
      assert UpTo(s, c) == [];
    } else {
      assert s[..1] != [c];
      var tail := s[1..];
      var rest := Split(tail, [c]);
      assert Split(s, [c]) == [[s[0]] + rest[0]] + rest[1..];
      assert UpTo(s, c) == [s[0]] + UpTo(tail, c);
      SplitAtChar(tail, c);
      if c in s {
        assert c in tail;
        assert tail[|UpTo(tail, c)| + 1..] == s[|UpTo(s, c)| + 1..];
      }
    }
  }

  /** The text before the first `c` of `x + [c] + y`, when `x` has no `c`, is `x`. */
  lemma {:induction false} UpToPrefix(x: string, c: char, y: string)
    requires c !in x
    ensures UpTo(x + [c] + y, c) == x
    decreases |x|
  {
    if x != [] {
      assert (x + [c] + y)[1..] == x[1..] + [c] + y;
      UpToPrefix(x[1..], c, y);
    }
  }

  // ---------------------------------------------------------------------
  // int(token)

  predicate IsDigit(c: char) {
    '0' <= c <= '9'
  }

  predicate AllDigits(s: string) {
    forall i :: 0 <= i < |s| ==> IsDigit(s[i])
  }

  /** The value of a string of decimal digits (leading zeros allowed, as `int()` allows them). */
  function DigitsValue(s: string): nat
    requires AllDigits(s)
  {
    if s == [] then 0 else 10 * DigitsValue(s[..|s| - 1]) + (s[|s| - 1] as int - '0' as int)
  }

  /** `int(token)` for a token without whitespace: an optional sign, then one or more digits. */
  function ParseInt(s: string): (r: Option<int>)
    ensures r.Some? <==> (var u := if |s| > 0 && (s[0] == '-' || s[0] == '+') then s[1..] else s;
                          u != [] && AllDigits(u))
    ensures r.Some? && |s| > 0 && s[0] == '-' ==> r.value <= 0
    ensures r.Some? && !(|s| > 0 && s[0] == '-') ==> r.value >= 0
  {
    if |s| > 0 && s[0] == '-' then
      if |s| > 1 && AllDigits(s[1..]) then Some(-(DigitsValue(s[1..]) as int)) else None
    else
      var u := if |s| > 0 && s[0] == '+' then s[1..] else s;
      if u != [] && AllDigits(u) then Some(DigitsValue(u)) else None
  }

  /** A run of digits holds no sign. */
  lemma DigitsHaveNoSign(s: string)
    requires AllDigits(s)
    ensures '+' !in s && '-' !in s
  {
  }

  /** The decimal rendering of a natural number (`str(n)`). */
  function ShowNat(n: nat): (s: string)
    ensures s != [] && AllDigits(s)
  {
    if n < 10 then [('0' as int + n) as char]
    else ShowNat(n / 10) + [('0' as int + n % 10) as char]
  }

  lemma {:induction false} ShowNatValue(n: nat)
    ensures DigitsValue(ShowNat(n)) == n
  {
    var s := ShowNat(n);
    if n >= 10 {
      ShowNatValue(n / 10);
      assert s[..|s| - 1] == ShowNat(n / 10);
    }
  }

  /** `int(str(n)) == n` and `int('-' + str(n)) == -n`. */
  lemma ParseIntShowNat(n: nat)
    ensures ParseInt(ShowNat(n)) == Some(n)
    ensures ParseInt("-" + ShowNat(n)) == Some(-(n as int))
  {
    ShowNatValue(n);
    assert ("-" + ShowNat(n))[1..] == ShowNat(n);
  }

  /** A decimal rendering, signed or not, holds no `+`. */
  lemma ShowNatHasNoPlus(n: nat)
    ensures '+' !in ShowNat(n) && '+' !in "-" + ShowNat(n)
  {
    DigitsHaveNoSign(ShowNat(n));
  }
}
