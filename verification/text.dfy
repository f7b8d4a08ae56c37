/** The JavaScript string operations the site relies on: `trim`, the `\s` class, `split` on
    one character, `join`, ASCII `toLowerCase`, `includes`, `startsWith` and the global
    one-character `replace`. Strings are sequences of characters. */
module Text {

  /** JavaScript's WhiteSpace and LineTerminator code points: the set that `String#trim`,
      the regular-expression class `\s` and `parseInt` all skip. */
  predicate IsSpace(c: char) {
    || c == '\t' || c == '\n' || c == '\U{000B}' || c == '\U{000C}' || c == '\r' || c == ' '
    || c == '\U{00A0}' || c == '\U{1680}' || ('\U{2000}' <= c <= '\U{200A}')
    || c == '\U{2028}' || c == '\U{2029}' || c == '\U{202F}' || c == '\U{205F}'
    || c == '\U{3000}' || c == '\U{FEFF}'
  }

  predicate AllSpace(s: string) {
    forall i | 0 <= i < |s| :: IsSpace(s[i])
  }

  /** No whitespace at either end: what `trim` returns. */
  predicate Trimmed(s: string) {
    s == [] || (!IsSpace(s[0]) && !IsSpace(s[|s| - 1]))
  }

  /** `trimStart`: drops the leading whitespace and nothing else. */
  function TrimStart(s: string): (r: string)
    ensures r == [] || !IsSpace(r[0])
    ensures |r| <= |s| && r == s[|s| - |r|..] && AllSpace(s[..|s| - |r|])
  {
    if s != [] && IsSpace(s[0]) then TrimStart(s[1..]) else s
  }

  /** `trimEnd`: drops the trailing whitespace and nothing else. */
  function TrimEnd(s: string): (r: string)
    ensures r == [] || !IsSpace(r[|r| - 1])
    ensures |r| <= |s| && r == s[..|r|] && AllSpace(s[|r|..])
  {
    if s != [] && IsSpace(s[|s| - 1]) then TrimEnd(s[..|s| - 1]) else s
  }

  /** `String#trim`. */
  function Trim(s: string): (r: string)
    ensures Trimmed(r)
  {
    TrimEnd(TrimStart(s))
  }

  /** `r` occurs in `s` at offset `i`. */
  predicate InfixAt(s: string, i: int, r: string) {
    0 <= i && i + |r| <= |s| && s[i..i + |r|] == r
  }

  /** `Trim(s)` is the infix of `s` that starts after its leading whitespace. */
  lemma TrimIsInfix(s: string)
    ensures InfixAt(s, |s| - |TrimStart(s)|, Trim(s))
  {
    InfixOfSuffix(s, TrimStart(s), Trim(s));
  }

  /** A prefix `r` of a suffix `a` of `s` is an infix of `s`. */
  lemma InfixOfSuffix(s: string, a: string, r: string)
    requires |a| <= |s| && a == s[|s| - |a|..] && |r| <= |a| && r == a[..|r|]
    ensures InfixAt(s, |s| - |a|, r)
  {
  }

  lemma TrimmedIsFixed(s: string)
    requires Trimmed(s)
    ensures Trim(s) == s
  {
  }

  lemma {:induction false} TrimStartSkipsSpace(w: string, s: string)
    requires AllSpace(w)
    ensures TrimStart(w + s) == TrimStart(s)
  {
    if w != [] {
      assert (w + s)[1..] == w[1..] + s;
      TrimStartSkipsSpace(w[1..], s);
    } else {
      assert w + s == s;
    }
  }

  /** Whitespace in front of a string does not change what `trim` returns. */
  lemma TrimSkipsLeadingSpace(w: string, s: string)
    requires AllSpace(w)
    ensures Trim(w + s) == Trim(s)
  {
    TrimStartSkipsSpace(w, s);
  }

  lemma {:induction false} TrimStartOfSpace(s: string)
    requires AllSpace(s)
    ensures TrimStart(s) == []
  {
    if s != [] {
      TrimStartOfSpace(s[1..]);
    }
  }

  /** A character absent from `s` is absent from `Trim(s)`. */
  lemma TrimKeepsAbsence(s: string, c: char)
    requires c !in s
    ensures c !in Trim(s)
  {
    TrimIsInfix(s);
    AbsentFromInfix(s, |s| - |TrimStart(s)|, Trim(s), c);
  }

  lemma AbsentFromInfix(s: string, i: int, r: string, c: char)
    requires InfixAt(s, i, r) && c !in s
    ensures c !in r
  {
    forall k | 0 <= k < |r| ensures r[k] != c {
      assert r[k] == s[i + k];
    }
  }

  /** `s.split(sep)` for a one-character separator: never empty; `"".split(sep)` is `[""]`. */
  function Split(s: string, sep: char): (parts: seq<string>)
    ensures |parts| >= 1
  {
    if s == [] then [""]
    else
      var rest := Split(s[1..], sep);
      if s[0] == sep then [""] + rest else [[s[0]] + rest[0]] + rest[1..]
  }

  /** No piece of a split holds the separator. */
  lemma {:induction false} SplitPiecesLackSep(s: string, sep: char)
    ensures forall i | 0 <= i < |Split(s, sep)| :: sep !in Split(s, sep)[i]
  {
    if s != [] {
      SplitPiecesLackSep(s[1..], sep);
      var rest := Split(s[1..], sep);
      if s[0] != sep {
        assert sep !in [s[0]] + rest[0];
      }
    }
  }

  /** `parts.join(sep)`. */
  function Join(parts: seq<string>, sep: string): string {
    if |parts| == 0 then ""
    else if |parts| == 1 then parts[0]
    else parts[0] + sep + Join(parts[1..], sep)
  }

  /** Joining one more piece adds the separator and the piece. */
  lemma {:induction false} JoinSnoc(xs: seq<string>, x: string, sep: string)
    requires xs != []
    ensures Join(xs + [x], sep) == Join(xs, sep) + sep + x
  {
    if |xs| > 1 {
      assert (xs + [x])[1..] == xs[1..] + [x];
      JoinSnoc(xs[1..], x, sep);
    }
  }

  /** Joining the pieces of a split with the separator gives back the original string. */
  lemma {:induction false} JoinSplit(s: string, sep: char)
    ensures Join(Split(s, sep), [sep]) == s
  {
    if s != [] {
      var rest := Split(s[1..], sep);
      JoinSplit(s[1..], sep);
      if s[0] == sep {
        assert Split(s, sep) == [""] + rest;
        assert ([""] + rest)[1..] == rest;
      } else if |rest| == 1 {
        assert Split(s, sep) == [[s[0]] + rest[0]];
      } else {
        assert Split(s, sep)[1..] == rest[1..];
        assert s == [s[0]] + s[1..];
      }
    }
  }

  lemma {:induction false} SplitWithoutSep(s: string, sep: char)
    requires sep !in s
    ensures Split(s, sep) == [s]
  {
    if s != [] {
      SplitWithoutSep(s[1..], sep);
      assert [s[0]] + s[1..] == s;
    }
  }

  /** Splitting at the first separator: the part before it is the first piece. */
  lemma {:induction false} SplitAtFirst(a: string, b: string, sep: char)
    requires sep !in a
    ensures Split(a + [sep] + b, sep) == [a] + Split(b, sep)
  {
    var s := a + [sep] + b;
    if a == [] {
      assert s[1..] == b;
    } else {
      assert s[1..] == a[1..] + [sep] + b;
      SplitAtFirst(a[1..], b, sep);
      assert [a[0]] + a[1..] == a;
    }
  }

  /** A separator-free prefix glues onto the first piece. */
  lemma {:induction false} SplitUnderPrefix(p: string, t: string, sep: char)
    requires sep !in p
    ensures Split(p + t, sep) == [p + Split(t, sep)[0]] + Split(t, sep)[1..]
  {
    if p != [] {
      assert (p + t)[1..] == p[1..] + t;
      assert (p + t)[0] == p[0] && p[0] in p;
      SplitUnderPrefix(p[1..], t, sep);
      var inner := Split(p[1..] + t, sep);
      assert inner[0] == p[1..] + Split(t, sep)[0] && inner[1..] == Split(t, sep)[1..];
      assert Split(p + t, sep) == [[p[0]] + inner[0]] + inner[1..];
      assert [p[0]] + (p[1..] + Split(t, sep)[0]) == p + Split(t, sep)[0];
    } else {
      var st := Split(t, sep);
      assert p + t == t && p + st[0] == st[0] && st == [st[0]] + st[1..];
    }
  }

  /** Every element but the first, with `pad` put in front. */
  function Padded(xs: seq<string>, pad: string): (r: seq<string>)
    ensures |r| == |xs| && forall i | 0 <= i < |xs| :: r[i] == pad + xs[i]
  {
    seq(|xs|, i requires 0 <= i < |xs| => pad + xs[i])
  }

  lemma {:induction false} SplitJoin(xs: seq<string>, sep: char, pad: string)
    requires |xs| >= 1 && sep !in pad
    requires forall x | x in xs :: sep !in x
    ensures Split(Join(xs, [sep] + pad), sep) == [xs[0]] + Padded(xs[1..], pad)
  {
    if |xs| == 1 {
      SplitWithoutSep(xs[0], sep);
    } else {
      var tail := Join(xs[1..], [sep] + pad);
      assert Join(xs, [sep] + pad) == xs[0] + [sep] + (pad + tail);
      SplitAtFirst(xs[0], pad + tail, sep);
      SplitJoin(xs[1..], sep, pad);
      SplitUnderPrefix(pad, tail, sep);
      assert xs[1..][1..] == xs[2..];
    }
  }

  /** `xs.map(x => x.trim())`. */
  function TrimEach(xs: seq<string>): (r: seq<string>)
    ensures |r| == |xs| && forall i | 0 <= i < |xs| :: r[i] == Trim(xs[i])
  {
    seq(|xs|, i requires 0 <= i < |xs| => Trim(xs[i]))
  }

  /** `xs.filter(x => x.length > 0)`. */
  function NonEmpty(xs: seq<string>): (r: seq<string>)
    ensures forall x | x in r :: x in xs && x != ""
  {
    if xs == [] then []
    else (if xs[0] == "" then [] else [xs[0]]) + NonEmpty(xs[1..])
  }

  lemma {:induction false} NonEmptyKeepsAll(xs: seq<string>)
    requires forall x | x in xs :: x != ""
    ensures NonEmpty(xs) == xs
  {
    if xs != [] {
      assert xs[0] in xs;
      forall x | x in xs[1..] ensures x != "" {
        assert x in xs;
      }
      NonEmptyKeepsAll(xs[1..]);
      assert [xs[0]] + xs[1..] == xs;
    }
  }

  /** An entry of a list field that survives being written out and read back: non-empty,
      trimmed and free of the separator. */
  predicate CleanEntry(x: string, sep: char) {
    x != "" && Trimmed(x) && sep !in x
  }

  /** `s.split(sep).map(x => x.trim()).filter(x => x.length > 0)`: the admin forms' reading
      of a comma- or newline-separated field. */
  function SplitTrimmed(s: string, sep: char): seq<string> {
    NonEmpty(TrimEach(Split(s, sep)))
  }

  /** Every entry read from a list field is clean. */
  lemma SplitTrimmedIsClean(s: string, sep: char)
    ensures forall x | x in SplitTrimmed(s, sep) :: CleanEntry(x, sep)
  {
    var parts := Split(s, sep);
    var trimmed := TrimEach(parts);
    SplitPiecesLackSep(s, sep);
    forall x | x in trimmed ensures sep !in x {
      var i :| 0 <= i < |trimmed| && trimmed[i] == x;
      assert parts[i] in parts;
      TrimKeepsAbsence(parts[i], sep);
    }
  }

  lemma {:induction false} TrimOfPaddedEntry(pad: string, x: string, sep: char)
    requires AllSpace(pad) && CleanEntry(x, sep)
    ensures Trim(pad + x) == x
  {
    TrimSkipsLeadingSpace(pad, x);
    TrimmedIsFixed(x);
  }

  lemma {:induction false} TrimEachOfPadded(xs: seq<string>, sep: char, pad: string)
    requires |xs| >= 1 && AllSpace(pad)
    requires forall x | x in xs :: CleanEntry(x, sep)
    ensures TrimEach([xs[0]] + Padded(xs[1..], pad)) == xs
  {
    var parts := [xs[0]] + Padded(xs[1..], pad);
    forall i | 0 <= i < |xs| ensures Trim(parts[i]) == xs[i] {
      assert xs[i] in xs;
      if i == 0 {
        TrimmedIsFixed(xs[0]);
      } else {
        assert parts[i] == pad + xs[i];
        TrimOfPaddedEntry(pad, xs[i], sep);
      }
    }
    var trimmed := TrimEach(parts);
    assert |trimmed| == |xs|;
    assert forall i | 0 <= i < |xs| :: trimmed[i] == xs[i];
  }

  /** Round trip of a list field: joining clean entries with `sep` followed by whitespace
      `pad` (", " or "\n") and reading the text back gives the same list. */
  lemma {:induction false} JoinThenSplitTrimmed(xs: seq<string>, sep: char, pad: string)
    requires AllSpace(pad) && sep !in pad
    requires forall x | x in xs :: CleanEntry(x, sep)
    ensures SplitTrimmed(Join(xs, [sep] + pad), sep) == xs
  {
    if xs == [] {
      assert Split("", sep) == [""];
      assert TrimEach([""]) == [""];
    } else {
      SplitJoin(xs, sep, pad);
      TrimEachOfPadded(xs, sep, pad);
      NonEmptyKeepsAll(xs);
    }
  }

  /** Reading a list field is idempotent: writing out what was read and reading it again
      changes nothing. */
  lemma SplitTrimmedIdempotent(s: string, sep: char, pad: string)
    requires AllSpace(pad) && sep !in pad
    ensures SplitTrimmed(Join(SplitTrimmed(s, sep), [sep] + pad), sep) == SplitTrimmed(s, sep)
  {
    SplitTrimmedIsClean(s, sep);
    JoinThenSplitTrimmed(SplitTrimmed(s, sep), sep, pad);
  }

  /** ASCII `toLowerCase` of one character. */
  function LowerChar(c: char): char {
    if 'A' <= c <= 'Z' then (c as int + 32) as char else c
  }

  function ToLower(s: string): (r: string)
    ensures |r| == |s| && forall i | 0 <= i < |s| :: r[i] == LowerChar(s[i])
  {
    seq(|s|, i requires 0 <= i < |s| => LowerChar(s[i]))
  }

  lemma ToLowerIdempotent(s: string)
    ensures ToLower(ToLower(s)) == ToLower(s)
  {
  }

  predicate StartsWith(s: string, prefix: string) {
    |prefix| <= |s| && s[..|prefix|] == prefix
  }

  /** `s.includes(needle)`. */
  predicate Includes(s: string, needle: string)
    decreases |s|
  {
    StartsWith(s, needle) || (s != [] && Includes(s[1..], needle))
  }

  /** `s.replace(/a/g, b)` for single characters. */
  function ReplaceChar(s: string, a: char, b: char): (r: string)
    ensures |r| == |s| && (a != b ==> a !in r)
    ensures forall i | 0 <= i < |s| :: r[i] == (if s[i] == a then b else s[i])
  {
    seq(|s|, i requires 0 <= i < |s| => if s[i] == a then b else s[i])
  }

  /** `s.replace(/c/g, '')`. */
  function RemoveChar(s: string, c: char): (r: string)
    ensures c !in r && |r| <= |s|
  {
    if s == [] then []
    else (if s[0] == c then [] else [s[0]]) + RemoveChar(s[1..], c)
  }
}
