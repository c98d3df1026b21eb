/**
 ATProto handle normalisation. Whether a string parses as an IP address is foreign code: `isIp` is any
 predicate, and where a result needs it, one that holds only of strings shaped like addresses.
 */
module Handle {
  import opened Text
  import N = Nsid

  const DISALLOWED_TLDS: seq<string> :=
    ["alt", "arpa", "example", "internal", "invalid", "local", "localhost", "onion"]
  const DEFAULT_DOMAIN: string := "bsky.social"
  const MAX_LENGTH: nat := 244

  datatype Result = Ok(handle: string) | InvalidSyntax | DisallowedTld

  type IpTest = string -> bool

  predicate IsAt(c: char) { c == '@' }

  predicate IsDot(c: char) { c == '.' }

  predicate AllDigits(s: string) { forall i :: 0 <= i < |s| ==> IsDigit(s[i]) }

  predicate AllDigitsOrDots(s: string) { forall i :: 0 <= i < |s| ==> IsDigit(s[i]) || s[i] == '.' }

  predicate IsLabel(s: string) { N.IsSegment(s) && IsAlphanumeric(s[0]) }

  predicate AllLabels(parts: seq<string>) { forall i :: 0 <= i < |parts| ==> IsLabel(parts[i]) }

  function Folded(raw: string): string { Lower(TrimStart(Trim(raw), IsAt)) }

  /** The checks on a trimmed, lowercased handle. */
  function Check(n: string, isIp: IpTest): Result {
    if n == "" || |n| > MAX_LENGTH then InvalidSyntax
    else if isIp(n) || n[0] == '[' || AllDigitsOrDots(n) then InvalidSyntax
    else
      var labels := Split(n, '.');
      if |labels| < 2 || !AllLabels(labels) then InvalidSyntax
      else if labels[|labels| - 1] in DISALLOWED_TLDS then DisallowedTld
      else if n == "handle.invalid" then DisallowedTld
      else Ok(n)
  }

  /** `normalize_handle`. */
  function NormalizeHandle(raw: string, isIp: IpTest): Result { Check(Folded(raw), isIp) }

  function Completed(name: string, domain: string): string { name + (['.'] + domain) }

  /** `normalize_handle_with_default_domain`. */
  function NormalizeWithDomain(raw: string, domain: string, isIp: IpTest): Result {
    var n := Lower(Trim(TrimStart(Trim(raw), IsAt)));
    if n == "" then InvalidSyntax
    else if '.' !in n then
      if n in DISALLOWED_TLDS || AllDigits(n) then InvalidSyntax
      else NormalizeHandle(Completed(n, TrimStart(Trim(domain), IsDot)), isIp)
    else NormalizeHandle(raw, isIp)
  }

  /** `normalize_user_handle`. */
  function NormalizeUserHandle(raw: string, isIp: IpTest): Result {
    NormalizeWithDomain(raw, DEFAULT_DOMAIN, isIp)
  }

  // ---------------------------------------------------------------------------------------------
  // The shape of a handle
  // ---------------------------------------------------------------------------------------------

  predicate AllowedEnd(labels: seq<string>) { labels != [] && labels[|labels| - 1] !in DISALLOWED_TLDS }

  /** The names that may not end a handle. */
  lemma ReservedNames(w: string)
    ensures w in DISALLOWED_TLDS <==>
            w in {"alt", "arpa", "example", "internal", "invalid", "local", "localhost", "onion"}
  {
    if w in {"alt", "arpa", "example", "internal", "invalid", "local", "localhost", "onion"} {
      var list := ["alt", "arpa", "example", "internal", "invalid", "local", "localhost", "onion"];
      assert list[0] == "alt" && list[1] == "arpa" && list[2] == "example" && list[3] == "internal";
      assert list[4] == "invalid" && list[5] == "local" && list[6] == "localhost" && list[7] == "onion";
    }
  }

  /** Two or more labels, the last of them an allowed top-level domain, and no address. */
  predicate IsHandle(n: string, isIp: IpTest) {
    var labels := Split(n, '.');
    && |n| <= 244 && |labels| >= 2 && AllLabels(labels) && AllowedEnd(labels)
    && !isIp(n) && !AllDigitsOrDots(n)
  }

  lemma {:induction false} JoinEnds(parts: seq<string>, sep: char)
    requires |parts| >= 1 && parts[0] != "" && parts[|parts| - 1] != ""
    ensures var s, last := Join(parts, sep), parts[|parts| - 1];
            s != "" && s[0] == parts[0][0] && s[|s| - 1] == last[|last| - 1]
  {
    if |parts| > 1 {
      var rest := parts[1..];
      JoinLast(rest, sep);
      assert rest[|rest| - 1] == parts[|parts| - 1];
    }
  }

  lemma {:induction false} JoinLast(parts: seq<string>, sep: char)
    requires |parts| >= 1 && parts[|parts| - 1] != ""
    ensures var s, last := Join(parts, sep), parts[|parts| - 1];
            s != "" && s[|s| - 1] == last[|last| - 1]
  {
    if |parts| > 1 {
      var rest := parts[1..];
      JoinLast(rest, sep);
      assert rest[|rest| - 1] == parts[|parts| - 1];
    }
  }

  lemma LabelEnds(s: string)
    requires IsLabel(s)
    ensures s != "" && IsAlphanumeric(s[0]) && IsAlphanumeric(s[|s| - 1])
  {
    assert N.IsSegmentChar(s[|s| - 1]);
  }

  lemma {:induction false} JoinedLabelsEnds(labels: seq<string>, n: string)
    requires |labels| >= 1 && AllLabels(labels) && n == Join(labels, '.')
    ensures n != "" && IsAlphanumeric(n[0]) && IsAlphanumeric(n[|n| - 1])
  {
    LabelEnds(labels[0]);
    LabelEnds(labels[|labels| - 1]);
    JoinEnds(labels, '.');
  }

  /** A dotted string of labels begins and ends with a letter or digit. */
  lemma {:induction false} LabelsEnds(n: string)
    requires AllLabels(Split(n, '.'))
    ensures n != "" && IsAlphanumeric(n[0]) && IsAlphanumeric(n[|n| - 1])
  {
    JoinSplit(n, '.');
    JoinedLabelsEnds(Split(n, '.'), n);
  }

  lemma InvalidIsDisallowed()
    ensures "invalid" in DISALLOWED_TLDS
  {
    assert DISALLOWED_TLDS[4] == "invalid";
  }

  lemma InvalidTld(a: string, b: string)
    requires a + ['.'] + b == "handle.invalid" && |a| == 6
    ensures Split("handle.invalid", '.') == [a, b] && b == "invalid"
  {
    var n := "handle.invalid";
    assert a == n[..6] && b == n[7..];
    assert b == "invalid";
    assert forall i :: 0 <= i < 6 ==> n[i] != '.';
    SplitTwo(a, '.', b);
  }

  /** The checks accept exactly the handles: the '[' and "handle.invalid" guards reject nothing more. */
  lemma CheckExactly(n: string, isIp: IpTest)
    ensures Check(n, isIp).Ok? <==> IsHandle(n, isIp)
    ensures Check(n, isIp).Ok? ==> Check(n, isIp) == Ok(n)
  {
    if AllLabels(Split(n, '.')) {
      LabelsEnds(n);
    }
    if n == "handle.invalid" {
      InvalidTld(n[..6], n[7..]);
      InvalidIsDisallowed();
    }
  }

  /** What else is well formed, two or more labels and no address, is refused for its last label; the rest for its syntax. */
  lemma {:induction false} RefusedExactly(n: string, isIp: IpTest)
    ensures Check(n, isIp).DisallowedTld? <==>
            && |n| <= MAX_LENGTH && |Split(n, '.')| >= 2 && AllLabels(Split(n, '.')) && !isIp(n) && !AllDigitsOrDots(n)
            && !AllowedEnd(Split(n, '.'))
  {
    CheckExactly(n, isIp);
    if AllLabels(Split(n, '.')) {
      LabelsEnds(n);
    }
    if n == "handle.invalid" {
      InvalidTld(n[..6], n[7..]);
      InvalidIsDisallowed();
    }
  }

  // ---------------------------------------------------------------------------------------------
  // Fixed points
  // ---------------------------------------------------------------------------------------------

  lemma LowerTwice(s: string)
    ensures Lower(Lower(s)) == Lower(s)
  {
  }

  lemma {:induction false} SolidIsFixed(n: string)
    requires n != "" && IsAlphanumeric(n[0]) && IsAlphanumeric(n[|n| - 1])
    ensures Trim(n) == n && TrimStart(n, IsAt) == n
  {
    TrimBothFixed(n, IsWhitespace);
  }

  /** A lowercase handle is left alone by trimming and folding. */
  lemma {:induction false} FoldedFixed(n: string)
    requires AllLabels(Split(n, '.')) && Lower(n) == n
    ensures Folded(n) == n && Trim(n) == n && TrimStart(n, IsAt) == n
  {
    LabelsEnds(n);
    SolidIsFixed(n);
  }

  lemma {:induction false} TwoPiecesHaveSeparator(s: string, sep: char)
    requires |Split(s, sep)| >= 2
    ensures sep in s
  {
    if sep !in s {
      SplitWhole(s, sep);
    }
  }

  /** What `normalize_handle` accepts is a lowercase handle, and a fixed point of it and of every variant. */
  lemma OutputIsFixed(n: string, domain: string, isIp: IpTest)
    requires IsHandle(n, isIp) && Lower(n) == n
    ensures NormalizeHandle(n, isIp) == Ok(n)
    ensures NormalizeWithDomain(n, domain, isIp) == Ok(n)
  {
    FoldedFixed(n);
    CheckExactly(n, isIp);
    LabelsEnds(n);
    TwoPiecesHaveSeparator(n, '.');
  }

  lemma NormalizedShape(raw: string, isIp: IpTest)
    requires NormalizeHandle(raw, isIp).Ok?
    ensures var n := NormalizeHandle(raw, isIp).handle;
            n == Folded(raw) && Lower(n) == n && IsHandle(n, isIp)
  {
    CheckExactly(Folded(raw), isIp);
    LowerTwice(TrimStart(Trim(raw), IsAt));
  }

  /**
   Idempotence: any accepted output of `normalize_user_handle` is two or more valid labels of total length
   at most 244 with an allowed last label, and a fixed point of it and of `normalize_handle`.
   */
  lemma UserHandleIdempotent(raw: string, isIp: IpTest)
    requires NormalizeUserHandle(raw, isIp).Ok?
    ensures var n := NormalizeUserHandle(raw, isIp).handle;
            && IsHandle(n, isIp) && Lower(n) == n
            && NormalizeUserHandle(n, isIp) == Ok(n) && NormalizeHandle(n, isIp) == Ok(n)
  {
    var n := Lower(Trim(TrimStart(Trim(raw), IsAt)));
    var full := if '.' in n then raw else Completed(n, TrimStart(Trim(DEFAULT_DOMAIN), IsDot));
    NormalizedShape(full, isIp);
    OutputIsFixed(NormalizeUserHandle(raw, isIp).handle, DEFAULT_DOMAIN, isIp);
  }

  /** A handle is an output exactly when it is a lowercase handle. */
  lemma OutputsExactly(n: string, isIp: IpTest)
    ensures (exists raw :: NormalizeHandle(raw, isIp) == Ok(n)) <==> IsHandle(n, isIp) && Lower(n) == n
  {
    if raw :| NormalizeHandle(raw, isIp) == Ok(n) {
      NormalizedShape(raw, isIp);
    }
    if IsHandle(n, isIp) && Lower(n) == n {
      OutputIsFixed(n, "", isIp);
    }
  }

  // ---------------------------------------------------------------------------------------------
  // The variants
  // ---------------------------------------------------------------------------------------------

  /** Lowercasing neither adds nor removes label structure. */
  lemma LowerKeepsAlphanumeric(c: char)
    ensures IsAlphanumeric(LowerChar(c)) <==> IsAlphanumeric(c)
    ensures LowerChar(c) == '.' <==> c == '.'
  {
  }

  /** A string that folds to labels has no whitespace at its ends. */
  lemma NothingToTrim(t: string)
    requires AllLabels(Split(Lower(t), '.'))
    ensures t != "" && Trim(t) == t
  {
    LabelsEnds(Lower(t));
    LowerKeepsAlphanumeric(t[0]);
    LowerKeepsAlphanumeric(t[|t| - 1]);
    TrimBothFixed(t, IsWhitespace);
  }

  /** Whatever `normalize_handle` accepts, the variants accept with the same answer. */
  lemma VariantsAgree(raw: string, domain: string, isIp: IpTest)
    requires NormalizeHandle(raw, isIp).Ok?
    ensures NormalizeWithDomain(raw, domain, isIp) == NormalizeHandle(raw, isIp)
  {
    NormalizedShape(raw, isIp);
    NothingToTrim(TrimStart(Trim(raw), IsAt));
    TwoPiecesHaveSeparator(Folded(raw), '.');
  }

  /** An address has only digits and dots, or a colon. */
  ghost predicate IsAddressTest(isIp: IpTest) { forall s :: isIp(s) ==> AllDigitsOrDots(s) || ':' in s }

  /** With such a test the address guard rejects nothing more than the other checks. */
  lemma AddressGuardIsRedundant(n: string, isIp: IpTest)
    requires IsAddressTest(isIp)
    ensures IsHandle(n, isIp) <==> IsHandle(n, s => false)
  {
    if AllLabels(Split(n, '.')) {
      forall i | 0 <= i < |n| ensures n[i] != ':' {
        N.CharsOfSegments(n, i);
      }
    }
  }

  // ---------------------------------------------------------------------------------------------
  // Completing a single label
  // ---------------------------------------------------------------------------------------------

  /** The dotless name the variants look at, and what is left of it once '@' is stripped again. */
  function NameOf(raw: string): string { Lower(Trim(TrimStart(Trim(raw), IsAt))) }

  function Bare(name: string): string { TrimStart(name, IsAt) }

  /** The domain as it ends up in the handle. */
  function DomainOf(domain: string): string { Lower(TrimStart(Trim(domain), IsDot)) }

  /** Labels, the last of them allowed at the end of a handle. */
  predicate IsDomain(domain: string) {
    var labels := Split(domain, '.');
    AllLabels(labels) && AllowedEnd(labels)
  }

  lemma {:induction false} CompletedLabels(name: string, domain: string)
    requires '.' !in name
    ensures var labels, rest := Split(Completed(name, domain), '.'), Split(domain, '.');
            && |labels| >= 2 && (AllLabels(labels) <==> IsLabel(name) && AllLabels(rest))
            && (AllowedEnd(labels) <==> AllowedEnd(rest))
  {
    var rest := Split(domain, '.');
    assert Completed(name, domain) == name + ['.'] + domain;
    SplitPrefix(name, '.', domain);
    LabelsConcat(name, rest);
    EndConcat(name, rest);
  }

  lemma EndConcat(name: string, rest: seq<string>)
    requires rest != []
    ensures AllowedEnd([name] + rest) <==> AllowedEnd(rest)
  {
    assert ([name] + rest)[|rest|] == rest[|rest| - 1];
  }

  lemma CompletedIsHandle(name: string, domain: string, isIp: IpTest)
    requires '.' !in name
    ensures var n := Completed(name, domain);
            IsHandle(n, isIp) <==>
            IsLabel(name) && IsDomain(domain) && |n| <= MAX_LENGTH && !isIp(n) && !AllDigitsOrDots(n)
  {
    CompletedLabels(name, domain);
  }

  lemma LabelsConcat(name: string, rest: seq<string>)
    ensures AllLabels([name] + rest) <==> IsLabel(name) && AllLabels(rest)
  {
    var labels := [name] + rest;
    assert labels[0] == name;
    if AllLabels(labels) {
      forall i | 0 <= i < |rest| ensures IsLabel(rest[i]) {
        assert IsLabel(labels[i + 1]);
      }
    }
  }

  lemma {:induction false} TrimStartAppend(a: string, b: string, drop: char -> bool)
    requires b != "" && !drop(b[0])
    ensures TrimStart(a + b, drop) == TrimStart(a, drop) + b
  {
    if a == "" {
      assert a + b == b;
    } else {
      assert (a + b)[1..] == a[1..] + b;
      TrimStartAppend(a[1..], b, drop);
    }
  }

  lemma SuffixedFolds(name: string, suffix: string)
    requires name != "" && !IsWhitespace(name[0]) && Lower(name) == name
    requires suffix != "" && !IsAt(suffix[0]) && !IsWhitespace(suffix[|suffix| - 1])
    ensures Folded(name + suffix) == Bare(name) + Lower(suffix)
  {
    var n := name + suffix;
    assert n[|n| - 1] == suffix[|suffix| - 1];
    TrimBothFixed(n, IsWhitespace);
    TrimStartAppend(name, suffix, IsAt);
    LowerOfSuffix(name, |name| - |Bare(name)|);
    LowerOfConcat(Bare(name), suffix);
  }

  /** What is left of a domain does not end in whitespace. */
  lemma DomainEnds(domain: string)
    ensures var d := TrimStart(Trim(domain), IsDot); d != "" ==> !IsWhitespace(d[|d| - 1])
  {
    SuffixEnds(Trim(domain), TrimStart(Trim(domain), IsDot));
  }

  lemma SuffixEnds(t: string, d: string)
    requires |d| <= |t| && d == t[|t| - |d|..] && (t != "" ==> !IsWhitespace(t[|t| - 1]))
    ensures d != "" ==> !IsWhitespace(d[|d| - 1])
  {
  }

  lemma SuffixLast(d: string)
    requires d != "" ==> !IsWhitespace(d[|d| - 1])
    ensures var suffix := ['.'] + d; suffix[0] == '.' && !IsWhitespace(suffix[|suffix| - 1])
  {
  }

  /** A lowercase name with nothing to trim folds, completed, to its bare form completed with the folded domain. */
  lemma CompletedFolds(name: string, d: string)
    requires name != "" && !IsWhitespace(name[0]) && Lower(name) == name && (d != "" ==> !IsWhitespace(d[|d| - 1]))
    ensures Folded(Completed(name, d)) == Completed(Bare(name), Lower(d))
  {
    SuffixLast(d);
    SuffixedFolds(name, ['.'] + d);
    LowerWithDot(d);
  }

  lemma LowerWithDot(domain: string)
    ensures Lower(['.'] + domain) == ['.'] + Lower(domain)
  {
    LowerOfConcat(['.'], domain);
    assert Lower(['.']) == ['.'];
  }

  lemma LowerOfSuffix(s: string, i: nat)
    requires i <= |s| && Lower(s) == s
    ensures Lower(s[i..]) == s[i..]
  {
    forall j | 0 <= j < |s| - i ensures Lower(s[i..])[j] == s[i..][j] {
      assert Lower(s)[i + j] == s[i + j];
    }
  }

  lemma LowerOfConcat(a: string, b: string)
    ensures Lower(a + b) == Lower(a) + Lower(b)
  {
  }

  lemma NameEnds(raw: string)
    requires NameOf(raw) != ""
    ensures !IsWhitespace(NameOf(raw)[0]) && Lower(NameOf(raw)) == NameOf(raw)
  {
    var t := Trim(TrimStart(Trim(raw), IsAt));
    LowerTwice(t);
    assert NameOf(raw)[0] == LowerChar(t[0]);
  }

  lemma BareHasNoDot(name: string)
    requires '.' !in name
    ensures '.' !in Bare(name)
  {
    forall i | 0 <= i < |Bare(name)| ensures Bare(name)[i] != '.' {
      assert name[|name| - |Bare(name)| + i] == Bare(name)[i];
    }
  }

  /** The completed handle is one: a label, a domain, short enough and no address. */
  predicate Completes(bare: string, domain: string, isIp: IpTest) {
    var full := Completed(bare, domain);
    IsLabel(bare) && IsDomain(domain) && |full| <= MAX_LENGTH && !isIp(full) && !AllDigitsOrDots(full)
  }

  /** Normalising a completed name. */
  lemma CompletedNormalizes(name: string, domain: string, isIp: IpTest)
    requires '.' !in name && name != "" && !IsWhitespace(name[0]) && Lower(name) == name
    ensures var r := NormalizeHandle(Completed(name, TrimStart(Trim(domain), IsDot)), isIp);
            && (r.Ok? <==> Completes(Bare(name), DomainOf(domain), isIp))
            && (r.Ok? ==> r == Ok(Completed(Bare(name), DomainOf(domain))))
  {
    DomainEnds(domain);
    CompletedFolds(name, TrimStart(Trim(domain), IsDot));
    BareHasNoDot(name);
    CompletedIsHandle(Bare(name), DomainOf(domain), isIp);
    CheckExactly(Completed(Bare(name), DomainOf(domain)), isIp);
  }

  /** The dotless branch. */
  lemma DotlessBranch(raw: string, domain: string, isIp: IpTest, name: string, stripped: string)
    requires NameOf(raw) == name && '.' !in name && TrimStart(Trim(domain), IsDot) == stripped
    ensures NormalizeWithDomain(raw, domain, isIp)
            == if name == "" || name in DISALLOWED_TLDS || AllDigits(name) then InvalidSyntax
               else NormalizeHandle(Completed(name, stripped), isIp)
  {
  }

  /**
   A name without a dot is completed with the default domain exactly when it is neither reserved nor
   numeric and, once '@' is stripped from it again, the completed handle is one. Any domain, any test.
   */
  lemma CompletesExactly(raw: string, domain: string, isIp: IpTest)
    requires '.' !in NameOf(raw)
    ensures var name := NameOf(raw);
            var r := NormalizeWithDomain(raw, domain, isIp);
            && (r.Ok? <==>
                  Completes(Bare(name), DomainOf(domain), isIp) && name !in DISALLOWED_TLDS && !AllDigits(name))
            && (r.Ok? ==> r == Ok(Completed(Bare(name), DomainOf(domain))))
  {
    DotlessBranch(raw, domain, isIp, NameOf(raw), TrimStart(Trim(domain), IsDot));
    if NameOf(raw) != "" {
      NameEnds(raw);
      CompletedNormalizes(NameOf(raw), domain, isIp);
    }
  }

  lemma TwoLabelDomain(b: string, c: string)
    requires IsLabel(b) && IsLabel(c) && c !in DISALLOWED_TLDS
    ensures IsDomain(b + ['.'] + c)
  {
    N.NoDotIn(b);
    N.NoDotIn(c);
    SplitTwo(b, '.', c);
    assert [b, c][0] == b && [b, c][1] == c;
  }

  /** The default domain is a domain. */
  lemma DefaultDomainIsDomain(d: string)
    requires d == DEFAULT_DOMAIN
    ensures IsDomain(d)
  {
    var b, c := "bsky", "social";
    assert IsLabel(b) && IsLabel(c);
    assert forall i :: 0 <= i < |DISALLOWED_TLDS| ==> DISALLOWED_TLDS[i][0] != 's';
    TwoLabelDomain(b, c);
    assert d == b + ['.'] + c;
  }

  /** Trimming and folding leave a lowercase domain alone. */
  lemma DomainIsFixed(domain: string)
    requires IsDomain(domain) && Lower(domain) == domain
    ensures DomainOf(domain) == domain
  {
    LabelsEnds(domain);
    TrimBothFixed(domain, IsWhitespace);
  }

  // ---------------------------------------------------------------------------------------------
  // Reserved names
  // ---------------------------------------------------------------------------------------------

  lemma {:induction false} TrimOne(c: string, rest: string, drop: char -> bool)
    requires |c| == 1 && drop(c[0]) && rest != "" && !drop(rest[0])
    ensures TrimStart(c + rest, drop) == rest
  {
    TrimStartAppend(c, rest, drop);
    assert c[1..] == "";
    assert TrimStart(c, drop) == "";
  }

  lemma TrimFirst(rest: string, at: string)
    requires rest != "" && !IsAt(rest[0]) && !IsWhitespace(rest[|rest| - 1]) && |at| == 1 && IsAt(at[0])
    ensures TrimStart(Trim(at + rest), IsAt) == rest
  {
    TrimBothFixed(at + rest, IsWhitespace);
    TrimOne(at, rest, IsAt);
  }

  lemma TrimBlank(inner: string, blank: string)
    requires inner != "" && !IsWhitespace(inner[0]) && !IsWhitespace(inner[|inner| - 1])
    requires |blank| == 1 && IsWhitespace(blank[0])
    ensures Trim(blank + inner) == inner
  {
    TrimOne(blank, inner, IsWhitespace);
    TrimBothFixed(inner, IsWhitespace);
  }

  /** Trimming '@', then a blank, leaves what follows them. */
  lemma TrimTwice(inner: string, at: string, blank: string)
    requires inner != "" && IsAt(inner[0]) && !IsWhitespace(inner[|inner| - 1])
    requires |at| == 1 && IsAt(at[0]) && |blank| == 1 && IsWhitespace(blank[0])
    ensures NameOf(at + (blank + inner)) == Lower(inner)
  {
    TrimFirst(blank + inner, at);
    TrimBlank(inner, blank);
    NameIs(at + (blank + inner), blank + inner, inner);
  }

  lemma NameIs(raw: string, stripped: string, inner: string)
    requires TrimStart(Trim(raw), IsAt) == stripped && Trim(stripped) == inner
    ensures NameOf(raw) == Lower(inner)
  {
  }

  lemma NotReserved(name: string)
    requires name != "" && name[0] == '@'
    ensures name !in DISALLOWED_TLDS && !AllDigits(name)
  {
    assert forall i :: 0 <= i < |DISALLOWED_TLDS| ==> DISALLOWED_TLDS[i][0] != '@';
  }

  lemma LowerWithAt(w: string)
    requires Lower(w) == w
    ensures Lower(['@'] + w) == ['@'] + w
  {
    LowerOfConcat(['@'], w);
    assert Lower(['@']) == ['@'];
  }

  lemma NameBehindAt(raw: string, name: string, w: string, domain: string, isIp: IpTest)
    requires Completes(w, DomainOf(domain), isIp)
    requires NameOf(raw) == name && '.' !in name && name != "" && name[0] == '@' && Bare(name) == w
    ensures NormalizeWithDomain(raw, domain, isIp) == Ok(Completed(w, DomainOf(domain)))
  {
    NotReserved(name);
    CompletesExactly(raw, domain, isIp);
  }

  /**
   Reserved and numeric labels are meant to be refused before completion. They are refused exactly when no
   '@' still leads the name after trimming.
   */
  lemma ReservedCompletedOnlyBehindAt(raw: string, domain: string, isIp: IpTest)
    requires '.' !in NameOf(raw) && Completes(Bare(NameOf(raw)), DomainOf(domain), isIp)
    requires Bare(NameOf(raw)) in DISALLOWED_TLDS || AllDigits(Bare(NameOf(raw)))
    ensures NormalizeWithDomain(raw, domain, isIp).Ok? <==> NameOf(raw)[0] == '@'
  {
    CompletesExactly(raw, domain, isIp);
    if NameOf(raw)[0] == '@' {
      NotReserved(NameOf(raw));
    } else {
      NothingToStrip(NameOf(raw));
    }
  }

  lemma {:induction false} NothingToStrip(name: string)
    requires name != "" && name[0] != '@'
    ensures Bare(name) == name
  {
  }

  lemma SecondAtName(w: string) returns (raw: string)
    requires IsLabel(w) && Lower(w) == w
    ensures raw == ['@'] + ([' '] + (['@'] + w)) && NameOf(raw) == ['@'] + w
    ensures '.' !in ['@'] + w && Bare(['@'] + w) == w
  {
    raw := ['@'] + ([' '] + (['@'] + w));
    LabelEnds(w);
    LowerWithAt(w);
    TrimTwice(['@'] + w, ['@'], [' ']);
    N.NoDotIn(w);
    TrimOne(['@'], w, IsAt);
  }

  /** And such input exists for every lowercase label, reserved or not: `@ @` in front of it. */
  lemma SecondAtIsStripped(w: string, domain: string, isIp: IpTest) returns (raw: string)
    requires Completes(w, DomainOf(domain), isIp) && Lower(w) == w
    ensures raw == ['@'] + ([' '] + (['@'] + w))
    ensures NormalizeWithDomain(raw, domain, isIp) == Ok(Completed(w, DomainOf(domain)))
  {
    raw := SecondAtName(w);
    NameBehindAt(raw, ['@'] + w, w, domain, isIp);
  }

  /** Lowercase letters only. */
  predicate IsPlain(w: string) { w != "" && |w| <= 9 && forall i :: 0 <= i < |w| ==> 'a' <= w[i] <= 'z' }

  lemma PlainIsLabel(w: string)
    requires IsPlain(w)
    ensures IsLabel(w) && Lower(w) == w
  {
  }

  lemma ReservedIsPlain(w: string)
    requires w in DISALLOWED_TLDS
    ensures IsPlain(w)
  {
    assert forall i :: 0 <= i < |DISALLOWED_TLDS| ==> IsPlain(DISALLOWED_TLDS[i]);
  }

  predicate LettersAndDots(d: string) { forall i :: 0 <= i < |d| ==> 'a' <= d[i] <= 'z' || d[i] == '.' }

  lemma LettersAndDotsFold(d: string)
    requires IsDomain(d) && LettersAndDots(d)
    ensures DomainOf(d) == d
  {
    assert Lower(d) == d;
    DomainIsFixed(d);
  }

  lemma DefaultDomainLetters(d: string)
    requires d == DEFAULT_DOMAIN
    ensures LettersAndDots(d) && |d| == 11
  {
  }

  lemma PlainCompletes(w: string, domain: string, isIp: IpTest)
    requires IsPlain(w) && IsDomain(domain) && |domain| <= 100 && !isIp(Completed(w, domain))
    ensures Completes(w, domain, isIp)
  {
    PlainIsLabel(w);
    assert Completed(w, domain)[0] == w[0];
  }

  lemma PlainBehindAt(w: string, d: string, isIp: IpTest)
    requires IsPlain(w) && IsDomain(d) && LettersAndDots(d) && |d| <= 100 && !isIp(Completed(w, d))
    ensures NormalizeWithDomain(['@'] + ([' '] + (['@'] + w)), d, isIp) == Ok(Completed(w, d))
  {
    PlainIsLabel(w);
    LettersAndDotsFold(d);
    PlainCompletes(w, d, isIp);
    var raw := SecondAtIsStripped(w, d, isIp);
  }

  /** Every reserved name is completed behind `@ @`. */
  lemma ReservedIsCompleted(w: string, d: string, isIp: IpTest)
    requires w in DISALLOWED_TLDS && d == DEFAULT_DOMAIN && !isIp(Completed(w, d))
    ensures NormalizeUserHandle(['@'] + ([' '] + (['@'] + w)), isIp) == Ok(Completed(w, d))
  {
    ReservedIsPlain(w);
    DefaultDomainIsDomain(d);
    DefaultDomainLetters(d);
    PlainBehindAt(w, d, isIp);
  }

  /** For example `@ @localhost` becomes `localhost.bsky.social`. */
  lemma LocalhostIsCompleted(raw: string, full: string, isIp: IpTest)
    requires raw == "@ @localhost" && full == "localhost.bsky.social" && !isIp(full)
    ensures NormalizeUserHandle(raw, isIp) == Ok(full)
  {
    var w, d := DISALLOWED_TLDS[6], DEFAULT_DOMAIN;
    assert Completed(w, d) == full;
    assert ['@'] + ([' '] + (['@'] + w)) == raw;
    ReservedIsCompleted(w, d, isIp);
  }
}
