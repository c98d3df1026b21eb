/**
 String helpers with the meaning of the Rust `str` and `char` methods the library calls:
 trimming, splitting, ASCII case folding and whitespace words.
 */
module Text {

  datatype Option<+T> = None | Some(value: T)

  /** `char::is_whitespace`: the Unicode White_Space property. */
  predicate IsWhitespace(c: char) {
    var n := c as int;
    || 0x09 <= n <= 0x0D || n == 0x20 || n == 0x85 || n == 0xA0 || n == 0x1680
    || 0x2000 <= n <= 0x200A || n == 0x2028 || n == 0x2029 || n == 0x202F || n == 0x205F || n == 0x3000
  }

  predicate IsDigit(c: char) { '0' <= c <= '9' }

  predicate IsAlpha(c: char) { 'a' <= c <= 'z' || 'A' <= c <= 'Z' }

  predicate IsAlphanumeric(c: char) { IsAlpha(c) || IsDigit(c) }

  /** `char::to_ascii_lowercase`. */
  function LowerChar(c: char): char {
    if 'A' <= c <= 'Z' then (c as int + 32) as char else c
  }

  /** `str::to_ascii_lowercase`. */
  function Lower(s: string): (r: string)
    ensures |r| == |s|
    ensures forall i :: 0 <= i < |s| ==> r[i] == LowerChar(s[i])
  {
    seq(|s|, i requires 0 <= i < |s| => LowerChar(s[i]))
  }

  /** `str::eq_ignore_ascii_case`. */
  predicate EqIgnoreCase(a: string, b: string) { Lower(a) == Lower(b) }

  /** `str::trim_start_matches(drop)`. */
  function TrimStart(s: string, drop: char -> bool): (r: string)
    ensures |r| <= |s| && r == s[|s| - |r|..]
    ensures forall i :: 0 <= i < |s| - |r| ==> drop(s[i])
    ensures r != "" ==> !drop(r[0])
  {
    if s != "" && drop(s[0]) then TrimStart(s[1..], drop) else s
  }

  /** `str::trim_end_matches(drop)`. */
  function TrimEnd(s: string, drop: char -> bool): (r: string)
    ensures |r| <= |s| && r == s[..|r|]
    ensures forall i :: |r| <= i < |s| ==> drop(s[i])
    ensures r != "" ==> !drop(r[|r| - 1])
  {
    if s != "" && drop(s[|s| - 1]) then TrimEnd(s[..|s| - 1], drop) else s
  }

  /** `str::trim_matches(drop)`. */
  function TrimBoth(s: string, drop: char -> bool): string {
    TrimEnd(TrimStart(s, drop), drop)
  }

  /** `str::trim`. */
  function Trim(s: string): string { TrimBoth(s, IsWhitespace) }

  /** A string whose two end characters survive trimming is left alone by it. */
  lemma TrimBothFixed(s: string, drop: char -> bool)
    requires s != "" ==> !drop(s[0]) && !drop(s[|s| - 1])
    ensures TrimBoth(s, drop) == s
  {
  }

  /** `str::split(sep)`: always at least one piece. */
  function Split(s: string, sep: char): (parts: seq<string>)
    ensures |parts| >= 1
  {
    if s == "" then [""]
    else if s[0] == sep then [""] + Split(s[1..], sep)
    else
      var rest := Split(s[1..], sep);
      [[s[0]] + rest[0]] + rest[1..]
  }

  /** The pieces glued back with the separator between them. */
  function Join(parts: seq<string>, sep: char): string
    requires |parts| >= 1
  {
    if |parts| == 1 then parts[0] else parts[0] + [sep] + Join(parts[1..], sep)
  }

  /** Putting a character before the first piece puts it before the join. */
  lemma {:induction false} JoinHead(c: char, parts: seq<string>, sep: char)
    requires |parts| >= 1
    ensures Join([[c] + parts[0]] + parts[1..], sep) == [c] + Join(parts, sep)
  {
    var longer := [[c] + parts[0]] + parts[1..];
    assert longer[1..] == parts[1..];
    if |parts| > 1 {
      var tail := Join(parts[1..], sep);
      assert [c] + parts[0] + [sep] + tail == [c] + (parts[0] + [sep] + tail);
    }
  }

  lemma {:induction false} JoinEmptyHead(parts: seq<string>, sep: char)
    requires |parts| >= 1
    ensures Join([""] + parts, sep) == [sep] + Join(parts, sep)
  {
    assert ([""] + parts)[1..] == parts;
    assert "" + [sep] + Join(parts, sep) == [sep] + Join(parts, sep);
  }

  /** No piece of a split holds the separator. */
  lemma {:induction false} PiecesAreFree(s: string, sep: char, i: nat)
    requires i < |Split(s, sep)|
    ensures sep !in Split(s, sep)[i]
    decreases |s|
  {
    if s != "" {
      if s[0] != sep {
        PiecesAreFree(s[1..], sep, i);
      } else if i > 0 {
        PiecesAreFree(s[1..], sep, i - 1);
      }
    }
  }

  /** Joining what `Split` produced gives the string back, and no piece holds the separator. */
  lemma {:induction false} JoinSplit(s: string, sep: char)
    ensures Join(Split(s, sep), sep) == s
    ensures forall p :: p in Split(s, sep) ==> sep !in p
  {
    forall p | p in Split(s, sep) ensures sep !in p {
      var i: nat :| i < |Split(s, sep)| && Split(s, sep)[i] == p;
      PiecesAreFree(s, sep, i);
    }
    if s != "" {
      JoinSplit(s[1..], sep);
      var rest := Split(s[1..], sep);
      if s[0] == sep {
        JoinEmptyHead(rest, sep);
      } else {
        JoinHead(s[0], rest, sep);
      }
    }
  }

  /** A separator-free prefix is split off as the first piece. */
  lemma {:induction false} SplitPrefix(a: string, sep: char, b: string)
    requires sep !in a
    ensures Split(a + [sep] + b, sep) == [a] + Split(b, sep)
  {
    var s := a + [sep] + b;
    if a == "" {
      assert s[1..] == b;
    } else {
      assert s[1..] == a[1..] + [sep] + b;
      SplitPrefix(a[1..], sep, b);
      assert a == [a[0]] + a[1..];
    }
  }

  /** A string without the separator is its own only piece. */
  /** Text without the separator joins the first piece of what follows it. */
  lemma {:induction false} SplitLead(a: string, sep: char, b: string)
    requires sep !in a
    ensures Split(a + b, sep) == [a + Split(b, sep)[0]] + Split(b, sep)[1..]
  {
    var rest := Split(b, sep);
    if a == "" {
      assert a + b == b && a + rest[0] == rest[0] && [rest[0]] + rest[1..] == rest;
    } else {
      assert (a + b)[1..] == a[1..] + b && (a + b)[0] == a[0] && a[0] in a;
      SplitLead(a[1..], sep, b);
      assert Split(a[1..] + b, sep)[1..] == rest[1..];
      assert [a[0]] + (a[1..] + rest[0]) == a + rest[0];
    }
  }

  lemma {:induction false} SplitWhole(s: string, sep: char)
    requires sep !in s
    ensures Split(s, sep) == [s]
  {
    if s != "" {
      SplitWhole(s[1..], sep);
      assert s == [s[0]] + s[1..];
    }
  }

  lemma {:induction false} SplitTwo(a: string, sep: char, b: string)
    requires sep !in a && sep !in b
    ensures Split(a + [sep] + b, sep) == [a, b]
  {
    SplitPrefix(a, sep, b);
    SplitWhole(b, sep);
  }

  /** Splitting a join of separator-free pieces recovers the pieces. */
  lemma {:induction false} SplitJoin(parts: seq<string>, sep: char)
    requires |parts| >= 1
    requires forall p :: p in parts ==> sep !in p
    ensures Split(Join(parts, sep), sep) == parts
  {
    if |parts| == 1 {
      SplitWhole(parts[0], sep);
    } else {
      SplitJoin(parts[1..], sep);
      SplitPrefix(parts[0], sep, Join(parts[1..], sep));
    }
  }

  /** `str::find(sep)`. */
  function Find(s: string, sep: char): (r: Option<nat>)
    ensures r.Some? ==> r.value < |s| && s[r.value] == sep && sep !in s[..r.value]
    ensures r.None? ==> sep !in s
  {
    if s == "" then None
    else if s[0] == sep then Some(0)
    else
      match Find(s[1..], sep)
      case None => None
      case Some(i) =>
        assert s[..i + 1] == [s[0]] + s[1..][..i];
        Some(i + 1)
  }

  /** The first occurrence is the one after a separator-free prefix. */
  lemma {:induction false} FindPrefix(a: string, sep: char, b: string)
    requires sep !in a
    ensures Find(a + [sep] + b, sep) == Some(|a|)
  {
    var s := a + [sep] + b;
    if a != "" {
      assert s[1..] == a[1..] + [sep] + b;
      FindPrefix(a[1..], sep, b);
    }
  }

  /** `Iterator::any`. */
  predicate Any(parts: seq<string>, f: string -> bool) { exists i :: 0 <= i < |parts| && f(parts[i]) }

  lemma AnyOfOne(p: string, f: string -> bool)
    ensures Any([p], f) <==> f(p)
  {
    assert [p][0] == p;
  }

  lemma AnyOfMore(p: string, qs: seq<string>, f: string -> bool)
    ensures Any([p] + qs, f) <==> f(p) || Any(qs, f)
  {
    var all := [p] + qs;
    assert all[0] == p && forall i :: 0 <= i < |qs| ==> all[i + 1] == qs[i];
  }

  /** `str::split_whitespace`: the maximal runs of non-whitespace characters. */
  function Words(s: string): (ws: seq<string>) {
    WordsFrom(s, "")
  }

  function WordsFrom(s: string, word: string): (ws: seq<string>)
    decreases |s|
  {
    if s == "" then (if word == "" then [] else [word])
    else if IsWhitespace(s[0]) then
      (if word == "" then [] else [word]) + WordsFrom(s[1..], "")
    else WordsFrom(s[1..], word + [s[0]])
  }

  /** A string without whitespace is its own only word. */
  lemma {:induction false} SingleWord(s: string, word: string)
    requires forall i :: 0 <= i < |s| ==> !IsWhitespace(s[i])
    ensures word + s != "" ==> WordsFrom(s, word) == [word + s]
    decreases |s|
  {
    if s != "" {
      SingleWord(s[1..], word + [s[0]]);
      assert word + [s[0]] + s[1..] == word + s;
    } else {
      assert word + s == word;
    }
  }

  lemma AloneIsWord(s: string)
    requires s != "" && forall i :: 0 <= i < |s| ==> !IsWhitespace(s[i])
    ensures Words(s) == [s]
  {
    SingleWord(s, "");
    assert "" + s == s;
  }

  /** Whitespace separates: with `AloneIsWord` this fixes what the words of a string are. */
  lemma {:induction false} WordsSplit(a: string, c: char, b: string, word: string)
    requires IsWhitespace(c)
    ensures WordsFrom(a + [c] + b, word) == WordsFrom(a, word) + Words(b)
    decreases |a|
  {
    var s := a + [c] + b;
    if a == "" {
      assert s[1..] == b;
    } else {
      assert s[1..] == a[1..] + [c] + b;
      if IsWhitespace(a[0]) {
        WordsSplit(a[1..], c, b, "");
      } else {
        WordsSplit(a[1..], c, b, word + [a[0]]);
      }
    }
  }
}
