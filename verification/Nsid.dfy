/**
 The XRPC method-name (NSID) grammar: the splitting check `is_valid_nsid`, the grammar it decides, and a
 one-pass automaton that decides the same language.
 */
module Nsid {
  import opened Text

  const MAX_LENGTH: nat := 317
  const MAX_SEGMENT: nat := 63
  const MIN_SEGMENTS: nat := 3

  predicate IsSlash(c: char) { c == '/' }

  predicate IsSegmentChar(c: char) { IsAlphanumeric(c) || c == '-' }

  predicate AllSegmentChars(s: string) { forall i :: 0 <= i < |s| ==> IsSegmentChar(s[i]) }

  predicate IsSegment(s: string) {
    && s != "" && |s| <= MAX_SEGMENT
    && s[0] != '-' && s[|s| - 1] != '-'
    && AllSegmentChars(s)
  }

  predicate StartsWithLetter(s: string) { s != "" && IsAlpha(s[0]) }

  predicate IsName(s: string) { StartsWithLetter(s) && forall i :: 0 <= i < |s| ==> IsAlphanumeric(s[i]) }

  predicate HasDoubleDot(s: string) { exists i :: 0 <= i < |s| - 1 && s[i] == '.' && s[i + 1] == '.' }

  function Trimmed(nsid: string): string { TrimStart(nsid, IsSlash) }

  /** The segment checks, as a list of pieces. */
  predicate GoodSegments(parts: seq<string>) {
    && |parts| >= MIN_SEGMENTS
    && (forall i :: 0 <= i < |parts| ==> IsSegment(parts[i]))
    && StartsWithLetter(parts[0]) && IsName(parts[|parts| - 1])
  }

  /** `is_valid_nsid`, with its three early guards. */
  predicate IsValidNsid(nsid: string) {
    var t := Trimmed(nsid);
    && t != "" && |t| <= MAX_LENGTH
    && !HasDoubleDot(t) && '\\' !in t && '%' !in t
    && GoodSegments(Split(t, '.'))
  }

  // ---------------------------------------------------------------------------------------------
  // The grammar
  // ---------------------------------------------------------------------------------------------

  /** A dotted join of good segments, within the total length. */
  predicate IsNsidOf(t: string, parts: seq<string>) {
    GoodSegments(parts) && t == Join(parts, '.') && |t| <= MAX_LENGTH
  }

  /** Two adjacent dots leave an empty piece, and never as the first. */
  lemma {:induction false} DoubleDotSplits(t: string, i: nat) returns (k: nat)
    requires i < |t| - 1 && t[i] == '.' && t[i + 1] == '.'
    ensures 1 <= k < |Split(t, '.')| && Split(t, '.')[k] == ""
    decreases i
  {
    if i == 0 {
      k := 1;
      assert Split(t, '.')[1..] == Split(t[1..], '.');
    } else {
      k := DoubleDotSplits(t[1..], i - 1);
      if t[0] == '.' {
        k := k + 1;
      }
    }
  }

  /** Every character but the separator lies in some piece. */
  lemma {:induction false} CharInPiece(t: string, i: nat) returns (k: nat)
    requires i < |t| && t[i] != '.'
    ensures k < |Split(t, '.')| && t[i] in Split(t, '.')[k]
    decreases i
  {
    if i == 0 {
      k := 0;
    } else {
      k := CharInPiece(t[1..], i - 1);
      if t[0] == '.' {
        k := k + 1;
      }
    }
  }

  /** Characters of a string of segments are segment characters and dots. */
  lemma {:induction false} CharsOfSegments(t: string, i: nat)
    requires (forall k :: 0 <= k < |Split(t, '.')| ==> IsSegment(Split(t, '.')[k])) && i < |t|
    ensures t[i] == '.' || IsSegmentChar(t[i])
  {
    if t[i] != '.' {
      var k := CharInPiece(t, i);
      assert IsSegment(Split(t, '.')[k]);
    }
  }

  lemma {:induction false} NoStrayChar(t: string, c: char)
    requires GoodSegments(Split(t, '.')) && !IsSegmentChar(c) && c != '.'
    ensures c !in t
  {
    forall i | 0 <= i < |t| ensures t[i] != c {
      CharsOfSegments(t, i);
    }
  }

  lemma {:induction false} NoDoubleDot(t: string)
    requires GoodSegments(Split(t, '.'))
    ensures !HasDoubleDot(t)
  {
    forall i | 0 <= i < |t| - 1 ensures !(t[i] == '.' && t[i + 1] == '.') {
      if t[i] == '.' {
        DotThenPiece(t, i);
      }
    }
  }

  /** The character after a dot begins a piece, or is a dot after an empty one. */
  lemma {:induction false} DotThenPiece(t: string, i: nat)
    requires i < |t| - 1 && t[i] == '.' && GoodSegments(Split(t, '.'))
    ensures t[i + 1] != '.'
  {
    if t[i + 1] == '.' {
      var k := DoubleDotSplits(t, i);
      assert false;
    }
  }

  /** The three guards reject nothing the segment checks would not. */
  lemma GuardsAreRedundant(nsid: string)
    ensures IsValidNsid(nsid) <==> |Trimmed(nsid)| <= MAX_LENGTH && GoodSegments(Split(Trimmed(nsid), '.'))
  {
    var t := Trimmed(nsid);
    if GoodSegments(Split(t, '.')) {
      NoDoubleDot(t);
      NoStrayChar(t, '\\');
      NoStrayChar(t, '%');
    }
  }

  /** The only way to write a string as a join of dot-free pieces is to split it. */
  lemma {:induction false} SplitIsOnly(t: string, parts: seq<string>)
    ensures IsNsidOf(t, parts) <==> GoodSegments(parts) && |t| <= MAX_LENGTH && parts == Split(t, '.')
  {
    if IsNsidOf(t, parts) {
      forall p | p in parts ensures '.' !in p {
        var i :| 0 <= i < |parts| && parts[i] == p;
        assert IsSegment(parts[i]);
      }
      SplitJoin(parts, '.');
    } else if parts == Split(t, '.') {
      JoinSplit(t, '.');
    }
  }

  /** Accepted exactly when, after the leading slashes, the string is an NSID of the grammar. */
  lemma DecidesTheGrammar(nsid: string)
    ensures IsValidNsid(nsid) <==> exists parts :: IsNsidOf(Trimmed(nsid), parts)
  {
    var t := Trimmed(nsid);
    GuardsAreRedundant(nsid);
    SplitIsOnly(t, Split(t, '.'));
    if parts :| IsNsidOf(t, parts) {
      SplitIsOnly(t, parts);
    }
  }

  // ---------------------------------------------------------------------------------------------
  // The documented grammar
  // ---------------------------------------------------------------------------------------------

  /** A segment as documented: a letter, then letters, digits and hyphens, not ending in a hyphen. */
  predicate IsDocumentedSegment(s: string) {
    s != "" && |s| <= 63 && IsAlpha(s[0]) && AllSegmentChars(s) && s[|s| - 1] != '-'
  }

  /** An NSID as documented: three or more such segments, the last of letters and digits. */
  predicate IsDocumentedNsid(t: string, parts: seq<string>) {
    && |parts| >= 3 && t == Join(parts, '.') && |t| <= 317
    && (forall i :: 0 <= i < |parts| ==> IsDocumentedSegment(parts[i]))
    && IsName(parts[|parts| - 1])
  }

  predicate AllStartWithLetter(parts: seq<string>) { forall i :: 0 <= i < |parts| ==> StartsWithLetter(parts[i]) }

  lemma DocumentedIsLettered(t: string, parts: seq<string>)
    ensures IsDocumentedNsid(t, parts) <==> IsNsidOf(t, parts) && AllStartWithLetter(parts)
  {
    forall i | 0 <= i < |parts|
      ensures IsDocumentedSegment(parts[i]) <==> IsSegment(parts[i]) && StartsWithLetter(parts[i])
    {
      assert parts[i] != "" && IsAlpha(parts[i][0]) ==> parts[i][0] != '-';
    }
  }

  predicate LeadsWithSlash(s: string) { s != "" && IsSlash(s[0]) }

  /** A documented NSID has nothing to trim. */
  lemma DocumentedHasNoSlash(nsid: string, parts: seq<string>)
    requires IsDocumentedNsid(nsid, parts)
    ensures !LeadsWithSlash(nsid) && Trimmed(nsid) == nsid
  {
    assert IsDocumentedSegment(parts[0]);
    assert nsid[0] == parts[0][0];
  }

  /**
   A string is an NSID as documented if and only if it is accepted, every segment starts with a letter and
   no slash leads it.
   */
  lemma DocumentedExactly(nsid: string)
    ensures (exists parts :: IsDocumentedNsid(nsid, parts))
            <==> IsValidNsid(nsid) && AllStartWithLetter(Split(Trimmed(nsid), '.')) && !LeadsWithSlash(nsid)
  {
    var t := Trimmed(nsid);
    GuardsAreRedundant(nsid);
    SplitIsOnly(t, Split(t, '.'));
    DocumentedIsLettered(t, Split(t, '.'));
    if parts :| IsDocumentedNsid(nsid, parts) {
      DocumentedHasNoSlash(nsid, parts);
      DocumentedIsLettered(t, parts);
      SplitIsOnly(t, parts);
    }
  }

  /** Every accepted string is accepted behind one more slash, and is then no NSID as documented. */
  lemma LeadingSlashIsAccepted(nsid: string)
    ensures var slashed := ['/'] + nsid;
            (IsValidNsid(slashed) <==> IsValidNsid(nsid)) && forall parts :: !IsDocumentedNsid(slashed, parts)
  {
    var slashed := ['/'] + nsid;
    assert slashed[1..] == nsid && Trimmed(slashed) == Trimmed(nsid);
    DocumentedExactly(slashed);
  }

  lemma JoinThree(a: string, b: string, c: string)
    ensures Join([a, b, c], '.') == a + ['.'] + (b + ['.'] + c)
  {
    assert [a, b, c][1..] == [b, c] && [b, c][1..] == [c];
    assert Join([b, c], '.') == b + ['.'] + Join([c], '.');
  }

  lemma ThreeAreAccepted(first: string, inner: string, last: string)
    requires IsSegment(first) && StartsWithLetter(first) && IsSegment(inner) && IsSegment(last) && IsName(last)
    requires |first| + |inner| + |last| + 2 <= MAX_LENGTH
    ensures var nsid := Join([first, inner, last], '.');
            IsValidNsid(nsid) && Trimmed(nsid) == nsid && Split(nsid, '.') == [first, inner, last]
  {
    var parts := [first, inner, last];
    var nsid := Join(parts, '.');
    JoinThree(first, inner, last);
    assert nsid[0] == first[0];
    assert Trimmed(nsid) == nsid;
    assert GoodSegments(parts) by {
      assert parts[0] == first && parts[1] == inner && parts[2] == last;
    }
    SplitIsOnly(nsid, parts);
    GuardsAreRedundant(nsid);
  }

  /** Segments between the first and the last may start with a digit. */
  lemma InnerDigitIsAccepted(first: string, inner: string, last: string)
    requires IsSegment(first) && StartsWithLetter(first) && IsSegment(inner) && IsDigit(inner[0]) && IsSegment(last) && IsName(last)
    requires |first| + |inner| + |last| + 2 <= MAX_LENGTH
    ensures var nsid := Join([first, inner, last], '.');
            IsValidNsid(nsid) && forall parts :: !IsDocumentedNsid(nsid, parts)
  {
    var nsid := Join([first, inner, last], '.');
    ThreeAreAccepted(first, inner, last);
    DocumentedExactly(nsid);
    assert Split(nsid, '.')[1] == inner;
  }

  /** For example `com.1a.get`, and `/com.example.get`. */
  lemma UndocumentedExamples(com: string, digit: string, example: string, get: string)
    requires com == "com" && digit == "1a" && example == "example" && get == "get"
    ensures IsValidNsid(Join([com, digit, get], '.')) && IsValidNsid(['/'] + Join([com, example, get], '.'))
  {
    ExampleSegments(com, digit, example, get);
    InnerDigitIsAccepted(com, digit, get);
    ThreeAreAccepted(com, example, get);
    LeadingSlashIsAccepted(Join([com, example, get], '.'));
  }

  lemma ExampleSegments(com: string, digit: string, example: string, get: string)
    requires com == "com" && digit == "1a" && example == "example" && get == "get"
    ensures IsSegment(com) && StartsWithLetter(com) && IsSegment(digit) && IsDigit(digit[0]) && IsSegment(example)
    ensures IsSegment(get) && IsName(get)
  {
  }

  // ---------------------------------------------------------------------------------------------
  // One pass
  // ---------------------------------------------------------------------------------------------

  /**
   Skipping slashes; or `total` characters in, `dots` dots seen (two meaning two or more), `len` into a
   segment, with what matters of that segment; or rejected.
   */
  datatype State =
    | Slashes
    | Within(total: nat, dots: nat, len: nat, letter: bool, hyphen: bool, hyphenLast: bool)
    | Rejected

  function Start(c: char): State {
    if IsSlash(c) then Slashes
    else if IsAlpha(c) then Within(1, 0, 1, true, false, false)
    else Rejected
  }

  function Next(st: State, c: char): State
    requires st.Within?
  {
    if st.total >= MAX_LENGTH then Rejected
    else if c == '.' then
      if st.len == 0 || st.hyphenLast then Rejected
      else Within(st.total + 1, if st.dots < 2 then st.dots + 1 else 2, 0, false, false, false)
    else if st.len >= MAX_SEGMENT then Rejected
    else if IsAlphanumeric(c) then
      Within(st.total + 1, st.dots, st.len + 1, if st.len == 0 then IsAlpha(c) else st.letter, st.hyphen, false)
    else if c == '-' && st.len > 0 then
      Within(st.total + 1, st.dots, st.len + 1, st.letter, true, true)
    else Rejected
  }

  function Run(st: State, s: string): State
    decreases |s|
  {
    if s == "" || st.Rejected? then st
    else if st.Slashes? then Run(Start(s[0]), s[1..])
    else Run(Next(st, s[0]), s[1..])
  }

  predicate Accepts(st: State) { st.Within? && st.dots >= 2 && st.len > 0 && st.letter && !st.hyphen }

  /** A segment so far: everything but the rule for its end. */
  predicate IsPartial(cur: string) {
    |cur| <= MAX_SEGMENT && AllSegmentChars(cur) && (cur != "" ==> cur[0] != '-')
  }

  /** The state after `done` whole segments and `cur` of the next. */
  function StateFor(total: nat, done: nat, cur: string): State {
    Within(total, if done < 2 then done else 2, |cur|, StartsWithLetter(cur), '-' in cur,
           cur != "" && cur[|cur| - 1] == '-')
  }

  /** What is still to be checked of the pieces that remain. */
  predicate GoodRest(done: nat, parts: seq<string>) {
    && |parts| >= 1 && done + |parts| >= MIN_SEGMENTS
    && (forall i :: 0 <= i < |parts| ==> IsSegment(parts[i]))
    && IsName(parts[|parts| - 1])
  }

  lemma HyphenFree(cur: string)
    requires AllSegmentChars(cur)
    ensures '-' !in cur <==> forall i :: 0 <= i < |cur| ==> IsAlphanumeric(cur[i])
  {
    if '-' !in cur {
      forall i | 0 <= i < |cur| ensures IsAlphanumeric(cur[i]) {
        assert IsSegmentChar(cur[i]);
        assert cur[i] in cur;
      }
    }
  }

  /** At the end of the string. */
  lemma EndAgrees(total: nat, done: nat, cur: string)
    requires IsPartial(cur)
    ensures Accepts(StateFor(total, done, cur)) <==> GoodRest(done, [cur])
  {
    HyphenFree(cur);
    assert [cur][0] == cur;
    if Accepts(StateFor(total, done, cur)) {
      assert cur[|cur| - 1] in cur;
    }
  }

  /** A dot closes the segment. */
  lemma DotAgrees(done: nat, cur: string, rest: seq<string>)
    requires |rest| >= 1
    ensures GoodRest(done, [cur] + rest) <==> IsSegment(cur) && GoodRest(done + 1, rest)
  {
    var parts := [cur] + rest;
    assert parts[0] == cur && parts[1..] == rest;
    if GoodRest(done, parts) {
      forall i | 0 <= i < |rest| ensures IsSegment(rest[i]) {
        assert IsSegment(parts[i + 1]);
      }
    }
  }

  /** The first piece of a split begins with any dot-free prefix of the string. */
  lemma {:induction false} FirstPiece(cur: string, s: string)
    requires '.' !in cur
    ensures cur <= Split(cur + s, '.')[0]
  {
    var t := cur + s;
    if cur != "" {
      assert t[1..] == cur[1..] + s;
      FirstPiece(cur[1..], s);
      var p := Split(t[1..], '.')[0];
      assert Split(t, '.')[0] == [cur[0]] + p;
      assert cur == [cur[0]] + cur[1..];
    }
  }

  lemma NoDotIn(cur: string)
    requires AllSegmentChars(cur)
    ensures '.' !in cur
  {
  }

  /** A segment that has gone wrong does not recover. */
  lemma {:induction false} BrokenStaysBroken(done: nat, cur: string, c: char, s: string)
    requires IsPartial(cur) && c != '.' && !IsPartial(cur + [c])
    ensures !GoodRest(done, Split(cur + [c] + s, '.'))
  {
    var broken := cur + [c];
    NoDotIn(cur);
    FirstPiece(broken, s);
    var p := Split(broken + s, '.')[0];
    if IsSegment(p) {
      PrefixOfSegment(broken, p);
    }
  }

  lemma PrefixOfSegment(cur: string, p: string)
    requires cur <= p && cur != "" && IsSegment(p)
    ensures IsPartial(cur)
  {
    forall i | 0 <= i < |cur| ensures IsSegmentChar(cur[i]) {
      assert cur[i] == p[i];
    }
  }

  /** One character further into a segment. */
  lemma CharAgrees(total: nat, done: nat, cur: string, c: char)
    requires IsPartial(cur) && c != '.' && total < MAX_LENGTH
    ensures IsPartial(cur + [c]) ==> Next(StateFor(total, done, cur), c) == StateFor(total + 1, done, cur + [c])
    ensures !IsPartial(cur + [c]) ==> Next(StateFor(total, done, cur), c) == Rejected
  {
    var more := cur + [c];
    assert '-' in more <==> '-' in cur || c == '-';
    assert AllSegmentChars(more) <==> IsSegmentChar(c) by {
      assert more[|cur|] == c;
      forall i | 0 <= i < |cur| ensures IsSegmentChar(more[i]) {
        assert more[i] == cur[i];
      }
    }
    assert more[0] == if cur == "" then c else cur[0];
  }

  /** The automaton agrees with splitting, `cur` into a segment and with `s` to come. */
  ghost predicate AgreesOn(total: nat, done: nat, cur: string, s: string) {
    Accepts(Run(StateFor(total, done, cur), s)) <==> total + |s| <= MAX_LENGTH && GoodRest(done, Split(cur + s, '.'))
  }

  lemma DotNext(total: nat, done: nat, cur: string)
    requires IsPartial(cur) && total < MAX_LENGTH
    ensures Next(StateFor(total, done, cur), '.') == if IsSegment(cur) then StateFor(total + 1, done + 1, "") else Rejected
  {
  }

  lemma {:induction false} DotSplits(done: nat, cur: string, s: string)
    requires IsPartial(cur) && s != "" && s[0] == '.'
    ensures GoodRest(done, Split(cur + s, '.')) <==> IsSegment(cur) && GoodRest(done + 1, Split(s[1..], '.'))
  {
    var rest := s[1..];
    NoDotIn(cur);
    assert cur + s == cur + ['.'] + rest;
    SplitPrefix(cur, '.', rest);
    DotAgrees(done, cur, Split(rest, '.'));
  }

  lemma DotStep(total: nat, done: nat, cur: string, s: string)
    requires IsPartial(cur) && total < MAX_LENGTH && s != "" && s[0] == '.' && AgreesOn(total + 1, done + 1, "", s[1..])
    ensures AgreesOn(total, done, cur, s)
  {
    DotNext(total, done, cur);
    DotSplits(done, cur, s);
    assert "" + s[1..] == s[1..];
  }

  lemma CharStep(total: nat, done: nat, cur: string, s: string)
    requires IsPartial(cur) && total < MAX_LENGTH && s != "" && s[0] != '.'
    requires IsPartial(cur + [s[0]]) ==> AgreesOn(total + 1, done, cur + [s[0]], s[1..])
    ensures AgreesOn(total, done, cur, s)
  {
    var c, rest := s[0], s[1..];
    assert cur + s == cur + [c] + rest;
    CharAgrees(total, done, cur, c);
    if !IsPartial(cur + [c]) {
      BrokenStaysBroken(done, cur, c, rest);
    }
  }

  /** From any point of the pass the automaton agrees with splitting what is left. */
  lemma {:induction false} PassAgrees(total: nat, done: nat, cur: string, s: string)
    requires IsPartial(cur) && total <= MAX_LENGTH
    ensures AgreesOn(total, done, cur, s)
    decreases |s|
  {
    if s == "" {
      NoDotIn(cur);
      SplitWhole(cur, '.');
      assert cur + s == cur;
      EndAgrees(total, done, cur);
    } else if total < MAX_LENGTH {
      if s[0] == '.' {
        PassAgrees(total + 1, done + 1, "", s[1..]);
        DotStep(total, done, cur, s);
      } else {
        if IsPartial(cur + [s[0]]) {
          PassAgrees(total + 1, done, cur + [s[0]], s[1..]);
        }
        CharStep(total, done, cur, s);
      }
    }
  }

  lemma {:induction false} SlashesSkip(s: string)
    ensures Run(Slashes, s) == Run(Slashes, TrimStart(s, IsSlash))
  {
    if s != "" && IsSlash(s[0]) {
      SlashesSkip(s[1..]);
    }
  }

  lemma GoodFromStart(parts: seq<string>)
    requires |parts| >= 1
    ensures GoodSegments(parts) <==> StartsWithLetter(parts[0]) && GoodRest(0, parts)
  {
  }

  /** The first piece of a string starts with its first character, unless that is the separator. */
  lemma {:induction false} FirstCharOfPiece(c: char, rest: string)
    ensures var p := Split([c] + rest, '.')[0]; if c == '.' then p == "" else p != "" && p[0] == c
  {
    var t := [c] + rest;
    assert t[0] == c && t[1..] == rest;
  }

  lemma {:induction false} LetterFirst(c: char, rest: string)
    requires IsAlpha(c)
    ensures Accepts(Run(Start(c), rest)) <==> 1 + |rest| <= MAX_LENGTH && GoodRest(0, Split([c] + rest, '.'))
  {
    assert IsPartial([c]);
    assert StateFor(1, 0, [c]) == Start(c);
    PassAgrees(1, 0, [c], rest);
  }

  /** The first character decides the first segment's letter rule. */
  lemma {:induction false} FirstCharAgrees(t: string)
    requires t != "" && !IsSlash(t[0])
    ensures Accepts(Run(Slashes, t)) <==> |t| <= MAX_LENGTH && GoodSegments(Split(t, '.'))
  {
    var c, rest := t[0], t[1..];
    assert t == [c] + rest;
    FirstCharOfPiece(c, rest);
    GoodFromStart(Split(t, '.'));
    if IsAlpha(c) {
      LetterFirst(c, rest);
    }
  }

  /** The automaton, in one pass over the whole string, decides the same language. */
  lemma {:induction false} OnePassDecides(nsid: string)
    ensures Accepts(Run(Slashes, nsid)) <==> IsValidNsid(nsid)
  {
    var t := Trimmed(nsid);
    SlashesSkip(nsid);
    GuardsAreRedundant(nsid);
    if t != "" {
      FirstCharAgrees(t);
    }
  }
}
