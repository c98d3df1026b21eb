/**
 The `WWW-Authenticate` challenge as the middleware prints it and as the client parses it
 (section 9 of RFC 9449).
 */
module Challenge {
  import opened Text

  function Quote(s: string): string { ['"'] + s + ['"'] }

  function Param(key: string, value: string): string { key + ['='] + Quote(value) }

  /** The header value of `unauthorized_response`: DPoP error="code", error_description="description". */
  function Print(code: string, description: Option<string>): string {
    var error := Param("error", code);
    "DPoP" + [' '] +
    if description.Some? then error + [','] + ([' '] + Param("error_description", description.value)) else error
  }

  predicate IsQuote(c: char) { c == '"' }

  /** One comma-separated parameter says `error="use_dpop_nonce"`. */
  predicate IsNonceError(raw: string) { SaysNonceError(Trim(raw)) }

  predicate SaysNonceError(param: string) {
    match Find(param, '=')
    case None => false
    case Some(i) =>
      && EqIgnoreCase(Trim(param[..i]), "error")
      && EqIgnoreCase(TrimBoth(Trim(param[i + 1..]), IsQuote), "use_dpop_nonce")
  }

  /** One header value is a DPoP challenge asking for a nonce. */
  predicate IsNonceChallenge(header: string) {
    var challenge := Trim(header);
    match Find(challenge, ' ')
    case None => false
    case Some(space) =>
      && EqIgnoreCase(challenge[..space], "DPoP")
      && HasNonceError(TrimStart(challenge[space..], IsWhitespace))
  }

  predicate HasNonceError(params: string) { Any(Split(params, ','), IsNonceError) }

  /** `is_rs_dpop_nonce_challenge` over all readable values of the header. */
  predicate AnyNonceChallenge(headers: seq<string>) { Any(headers, IsNonceChallenge) }

  /** Starts and ends with a character trimming keeps. */
  predicate Solid(s: string) { s != "" && !IsWhitespace(s[0]) && !IsWhitespace(s[|s| - 1]) }

  lemma TrimSolid(s: string)
    requires Solid(s)
    ensures Trim(s) == s
  {
    TrimBothFixed(s, IsWhitespace);
  }

  predicate AllBlank(s: string) { forall i :: 0 <= i < |s| ==> IsWhitespace(s[i]) }

  lemma {:induction false} TrimBlanks(gap: string, s: string)
    requires AllBlank(gap) && s != "" && !IsWhitespace(s[0])
    ensures TrimStart(gap + s, IsWhitespace) == s
  {
    if gap == "" {
      assert gap + s == s;
    } else {
      assert (gap + s)[1..] == gap[1..] + s;
      TrimBlanks(gap[1..], s);
    }
  }

  lemma Unquote(s: string)
    requires '"' !in s
    ensures TrimBoth(Quote(s), IsQuote) == s
  {
    var q, open := Quote(s), s + ['"'];
    assert q[1..] == open;
    if s == "" {
      assert open[1..] == "";
    } else {
      assert open[0] == s[0];
      assert TrimStart(q, IsQuote) == open;
      assert open[..|s|] == s;
      assert s[|s| - 1] in s;
      assert TrimEnd(s, IsQuote) == s;
    }
  }

  lemma ParamShape(key: string, value: string)
    requires Solid(key)
    ensures Solid(Param(key, value)) && (',' !in key && ',' !in value ==> ',' !in Param(key, value))
  {
    var p := Param(key, value);
    assert p[0] == key[0] && p[|p| - 1] == '"';
  }

  /** A printed parameter is judged by its key and its bare value. */
  lemma PrintedParam(key: string, value: string)
    requires Solid(key) && '=' !in key
    ensures SaysNonceError(Param(key, value))
            <==> EqIgnoreCase(key, "error") && EqIgnoreCase(TrimBoth(Quote(value), IsQuote), "use_dpop_nonce")
  {
    var p := Param(key, value);
    FindPrefix(key, '=', Quote(value));
    assert p[..|key|] == key && p[|key| + 1..] == Quote(value);
    TrimSolid(key);
    TrimSolid(Quote(value));
  }

  /** Any parameter: the name before the first '=', blanks around it and the value, and quotes around that, do not matter. */
  lemma ParamExactly(name: string, value: string)
    requires '=' !in name
    ensures SaysNonceError(name + ['='] + value)
            <==> EqIgnoreCase(Trim(name), "error") && EqIgnoreCase(TrimBoth(Trim(value), IsQuote), "use_dpop_nonce")
  {
    var p := name + ['='] + value;
    FindPrefix(name, '=', value);
    assert p[..|name|] == name && p[|name| + 1..] == value;
  }

  lemma ErrorParam(code: string)
    requires ',' !in code && '"' !in code
    ensures IsNonceError(Param("error", code)) <==> EqIgnoreCase(code, "use_dpop_nonce")
  {
    ParamShape("error", code);
    TrimSolid(Param("error", code));
    PrintedParam("error", code);
    Unquote(code);
  }

  /** A parameter whose name is not `error`, however it goes on, is not the error. */
  lemma OtherKey(key: string, rest: string)
    requires Solid(key) && '=' !in key && !EqIgnoreCase(key, "error")
    ensures !SaysNonceError(key + ['='] + rest)
  {
    var p := key + ['='] + rest;
    FindPrefix(key, '=', rest);
    assert p[..|key|] == key;
    TrimSolid(key);
  }

  /** Trimming the end keeps a prefix that ends in a character that stays. */
  lemma TrimEndKeeps(a: string, x: string) returns (y: string)
    requires a != "" && !IsWhitespace(a[|a| - 1])
    ensures TrimEnd(a + x, IsWhitespace) == a + y
  {
    var r := TrimEnd(a + x, IsWhitespace);
    assert (a + x)[|a| - 1] == a[|a| - 1];
    y := r[|a|..];
    assert r[..|a|] == a;
  }

  /** The piece in which the description starts is not the error. */
  lemma DescriptionPiece(key: string, x: string)
    requires Solid(key) && '=' !in key && !EqIgnoreCase(key, "error")
    ensures !IsNonceError([' '] + (key + ['=', '"'] + x))
  {
    var a := key + ['=', '"'];
    assert (a + x)[0] == key[0];
    TrimBlanks([' '], a + x);
    var y := TrimEndKeeps(a, x);
    assert a + y == key + ['='] + (['"'] + y);
    OtherKey(key, ['"'] + y);
  }

  lemma HeaderParts(scheme: string, gap: string, params: string)
    requires Solid(scheme) && ' ' !in scheme && gap != "" && gap[0] == ' ' && Solid(params)
    ensures var header := scheme + gap + params;
            && Trim(header) == header && Find(header, ' ') == Some(|scheme|)
            && header[..|scheme|] == scheme && header[|scheme|..] == gap + params
  {
    var header := scheme + gap + params;
    assert header[0] == scheme[0] && header[|header| - 1] == params[|params| - 1];
    TrimSolid(header);
    FindPrefix(scheme, ' ', gap[1..] + params);
    assert header == scheme + [' '] + (gap[1..] + params);
  }

  lemma {:induction false} ReadsParams(header: string, space: nat, params: string)
    requires Trim(header) == header && Find(header, ' ') == Some(space) && space <= |header|
    requires TrimStart(header[space..], IsWhitespace) == params
    ensures IsNonceChallenge(header) <==> EqIgnoreCase(header[..space], "DPoP") && HasNonceError(params)
  {
  }

  /** What the client looks at once it has seen the scheme and the blanks after it. */
  lemma AfterScheme(scheme: string, gap: string, params: string)
    requires Solid(scheme) && ' ' !in scheme && gap != "" && gap[0] == ' ' && AllBlank(gap) && Solid(params)
    ensures IsNonceChallenge(scheme + gap + params) <==> EqIgnoreCase(scheme, "DPoP") && HasNonceError(params)
  {
    HeaderParts(scheme, gap, params);
    TrimBlanks(gap, params);
    ReadsParams(scheme + gap + params, |scheme|, params);
  }

  /** Blanks around a value make no difference. */
  lemma SurroundingBlanks(header: string)
    ensures IsNonceChallenge(header) <==> IsNonceChallenge(Trim(header))
  {
    if Trim(header) != "" {
      TrimSolid(Trim(header));
    }
  }

  /** A scheme without parameters asks for nothing. */
  lemma SchemeAlone(header: string)
    requires ' ' !in Trim(header)
    ensures !IsNonceChallenge(header)
  {
    NotFound(Trim(header), ' ');
  }

  lemma {:induction false} NotFound(s: string, c: char)
    requires c !in s
    ensures Find(s, c).None?
  {
  }

  /** Every value of the header counts, wherever it stands. */
  lemma AnyValueCounts(before: seq<string>, header: string, after: seq<string>)
    ensures AnyNonceChallenge(before + [header] + after)
            <==> AnyNonceChallenge(before) || IsNonceChallenge(header) || AnyNonceChallenge(after)
  {
    var all := before + [header] + after;
    assert forall i :: 0 <= i < |before| ==> all[i] == before[i];
    assert all[|before|] == header;
    assert forall i :: 0 <= i < |after| ==> all[|before| + 1 + i] == after[i];
    if AnyNonceChallenge(all) {
      var i :| 0 <= i < |all| && IsNonceChallenge(all[i]);
      assert i < |before| || i == |before| || all[i] == after[i - |before| - 1];
    }
  }

  lemma AfterDPoP(params: string)
    requires Solid(params)
    ensures IsNonceChallenge("DPoP" + [' '] + params) <==> HasNonceError(params)
  {
    AfterScheme("DPoP", [' '], params);
  }

  lemma WithoutDescription(error: string)
    requires Solid(error) && ',' !in error
    ensures IsNonceChallenge("DPoP" + [' '] + error) <==> IsNonceError(error)
  {
    AfterDPoP(error);
    SplitWhole(error, ',');
    AnyOfOne(error, IsNonceError);
  }

  lemma PrintedBare(code: string)
    requires ',' !in code && '"' !in code
    ensures IsNonceChallenge("DPoP" + [' '] + Param("error", code)) <==> EqIgnoreCase(code, "use_dpop_nonce")
  {
    ParamShape("error", code);
    WithoutDescription(Param("error", code));
    ErrorParam(code);
  }

  /** The pieces of a printed description after its first comma, with the closing quote on the last. */
  function LaterPieces(description: string): seq<string> { Split(description + ['"'], ',')[1..] }

  lemma NoLaterPieces(description: string)
    requires ',' !in description
    ensures LaterPieces(description) == []
  {
    SplitWhole(description + ['"'], ',');
  }

  /** How the client cuts up error and description. */
  lemma PrintedPieces(error: string, key: string, description: string) returns (first: string)
    requires ',' !in error && ',' !in key
    ensures Split(error + [','] + ([' '] + Param(key, description)), ',') == [error] + ([first] + LaterPieces(description))
    ensures exists x :: first == [' '] + (key + ['=', '"'] + x)
  {
    var lead, rest := [' '] + (key + ['=', '"']), description + ['"'];
    assert [' '] + Param(key, description) == lead + rest;
    SplitPrefix(error, ',', lead + rest);
    SplitLead(lead, ',', rest);
    var x := Split(rest, ',')[0];
    first := lead + x;
    assert first == [' '] + (key + ['=', '"'] + x);
  }

  lemma SolidParams(error: string, key: string, description: string)
    requires Solid(error)
    ensures Solid(error + [','] + ([' '] + Param(key, description)))
  {
    var s := error + [','] + ([' '] + Param(key, description));
    assert s[0] == error[0] && s[|s| - 1] == '"';
  }

  lemma WithDescription(error: string, key: string, description: string)
    requires Solid(error) && ',' !in error && Solid(key) && ',' !in key && '=' !in key && !EqIgnoreCase(key, "error")
    ensures IsNonceChallenge("DPoP" + [' '] + (error + [','] + ([' '] + Param(key, description))))
            <==> IsNonceError(error) || Any(LaterPieces(description), IsNonceError)
  {
    SolidParams(error, key, description);
    AfterDPoP(error + [','] + ([' '] + Param(key, description)));
    var first := PrintedPieces(error, key, description);
    var x :| first == [' '] + (key + ['=', '"'] + x);
    DescriptionPiece(key, x);
    AnyOfMore(first, LaterPieces(description), IsNonceError);
    AnyOfMore(error, [first] + LaterPieces(description), IsNonceError);
  }

  lemma DescriptionKey(key: string)
    requires key == "error_description"
    ensures Solid(key) && ',' !in key && '=' !in key && !EqIgnoreCase(key, "error")
  {
    assert |Lower(key)| != |Lower("error")|;
  }

  lemma PrintedDetailed(code: string, description: string)
    requires ',' !in code && '"' !in code
    ensures IsNonceChallenge("DPoP" + [' '] + (Param("error", code) + [','] + ([' '] + Param("error_description", description))))
            <==> EqIgnoreCase(code, "use_dpop_nonce") || Any(LaterPieces(description), IsNonceError)
  {
    ParamShape("error", code);
    ErrorParam(code);
    DescriptionKey("error_description");
    WithDescription(Param("error", code), "error_description", description);
  }

  /**
   The client recognises a printed challenge exactly when its code is `use_dpop_nonce`, or a piece of its
   description after a comma reads as that error. Any description.
   */
  lemma PrintedChallenge(code: string, description: Option<string>)
    requires ',' !in code && '"' !in code
    ensures IsNonceChallenge(Print(code, description))
            <==> || EqIgnoreCase(code, "use_dpop_nonce")
                 || (description.Some? && Any(LaterPieces(description.value), IsNonceError))
  {
    match description
    case None => PrintedBare(code);
    case Some(d) => PrintedDetailed(code, d);
  }

  lemma Literals()
    ensures "DPoP" + [' '] + ("error" + ['='] + ['"']) == "DPoP error=\""
    ensures ['"'] + [','] + [' '] + ("error_description" + ['='] + ['"']) == "\", error_description=\""
  {
  }

  lemma RegroupBare(a: string, name: string, code: string)
    ensures a + [' '] + (name + ['='] + (['"'] + code + ['"'])) == (a + [' '] + (name + ['='] + ['"'])) + code + ['"']
  {
  }

  lemma RegroupDetail(head: string, name: string, d: string)
    ensures head + ['"'] + [','] + ([' '] + (name + ['='] + (['"'] + d + ['"'])))
            == head + (['"'] + [','] + [' '] + (name + ['='] + ['"'])) + d + ['"']
  {
  }

  lemma RegroupMiddle(a: string, error: string, head: string, rest: string)
    requires a + [' '] + error == head + ['"']
    ensures a + [' '] + (error + [','] + rest) == head + ['"'] + [','] + rest
  {
    assert a + [' '] + (error + [','] + rest) == (a + [' '] + error) + [','] + rest;
  }

  /** How a challenge is written out, with and without a description. */
  lemma PrintedForm(code: string, description: string)
    ensures Print(code, None) == "DPoP error=\"" + code + "\""
    ensures Print(code, Some(description))
            == "DPoP error=\"" + code + "\", error_description=\"" + description + "\""
  {
    Literals();
    RegroupBare("DPoP", "error", code);
    var head := "DPoP error=\"" + code;
    RegroupMiddle("DPoP", Param("error", code), head, [' '] + Param("error_description", description));
    RegroupDetail(head, "error_description", description);
  }

  /** Without a comma in the description, the code alone decides. */
  lemma CodeDecides(code: string, description: Option<string>)
    requires ',' !in code && '"' !in code && (description.Some? ==> ',' !in description.value)
    ensures IsNonceChallenge(Print(code, description)) <==> EqIgnoreCase(code, "use_dpop_nonce")
  {
    PrintedChallenge(code, description);
    if description.Some? {
      NoLaterPieces(description.value);
    }
  }
}
