/**
 Matching a class label against what a user typed: the regular-expression tokenizer is a scanner of letter runs and
 digit runs (src/ai/lois-plan-facing.ts). Lower-casing is ASCII; any other character separates tokens.
 */
module ClassLabels {
  import opened Prelude
  import opened Decimals

  predicate IsLetter(c: char) { 'a' <= c <= 'z' }
  predicate IsTokenChar(c: char) { IsLetter(c) || IsDigit(c) }

  /** `[a-z0-9]` */
  lemma TokenChars(c: char)
    ensures IsLetter(c) <==> c in "abcdefghijklmnopqrstuvwxyz"
    ensures IsDigit(c) <==> c in "0123456789"
  {
  }

  // ---------------------------------------------------------------- the pipeline of the source

  /** `.replace(/[^a-z0-9]+/g, ' ')`: every maximal run of other characters becomes one blank. */
  function CollapseOthers(s: string): string
    decreases |s|
  {
    if s == "" then ""
    else if IsTokenChar(s[0]) then [s[0]] + CollapseOthers(s[1..])
    else " " + CollapseOthers(SkipOthers(s))
  }

  function SkipOthers(s: string): (r: string)
    ensures |r| <= |s| && (s != "" && !IsTokenChar(s[0]) ==> |r| < |s|)
  {
    if s == "" || IsTokenChar(s[0]) then s else SkipOthers(s[1..])
  }

  /** `.replace(/([a-z])(\d)/g, '$1 $2')`: matches are taken from the left and do not overlap. */
  function SplitLetterDigit(s: string): string {
    if |s| < 2 then s
    else if IsLetter(s[0]) && IsDigit(s[1]) then [s[0], ' ', s[1]] + SplitLetterDigit(s[2..])
    else [s[0]] + SplitLetterDigit(s[1..])
  }

  /** `.replace(/(\d)([a-z])/g, '$1 $2')` */
  function SplitDigitLetter(s: string): string {
    if |s| < 2 then s
    else if IsDigit(s[0]) && IsLetter(s[1]) then [s[0], ' ', s[1]] + SplitDigitLetter(s[2..])
    else [s[0]] + SplitDigitLetter(s[1..])
  }

  function TrimStart(s: string): (r: string)
    ensures |r| <= |s| && (s != "" && s[0] == ' ' ==> |r| < |s|)
  {
    if s != "" && s[0] == ' ' then TrimStart(s[1..]) else s
  }

  function TrimEnd(s: string): string {
    if s != "" && s[|s| - 1] == ' ' then TrimEnd(s[..|s| - 1]) else s
  }

  /** `.split(/\s+/)`: only blanks are left to split at. */
  function SplitBlanks(s: string): (r: seq<string>)
    ensures r != []
    decreases |s|
  {
    if s == "" then [""]
    else if s[0] == ' ' then [""] + SplitBlanks(TrimStart(s))
    else
      var rest := SplitBlanks(s[1..]);
      [[s[0]] + rest[0]] + rest[1..]
  }

  /** `.filter(Boolean)` */
  function NonEmpty(ws: seq<string>): seq<string> {
    if ws == [] then [] else (if ws[0] != "" then [ws[0]] else []) + NonEmpty(ws[1..])
  }

  function TokenizeLowered(s: string): seq<string> {
    NonEmpty(SplitBlanks(TrimEnd(TrimStart(SplitDigitLetter(SplitLetterDigit(CollapseOthers(s)))))))
  }

  function TokenizeClassLabel(value: string): seq<string> { TokenizeLowered(Lower(value)) }

  // ---------------------------------------------------------------- the simple scanner

  predicate SameKind(a: char, b: char) { (IsLetter(a) && IsLetter(b)) || (IsDigit(a) && IsDigit(b)) }

  /** Maximal runs of letters and maximal runs of digits, in order. */
  function Scan(s: string): (r: seq<string>)
    ensures s != "" && IsTokenChar(s[0]) ==> r != [] && r[0] != "" && r[0][0] == s[0]
  {
    if s == "" then []
    else if !IsTokenChar(s[0]) then Scan(s[1..])
    else
      var rest := Scan(s[1..]);
      if |s| > 1 && SameKind(s[0], s[1]) then [[s[0]] + rest[0]] + rest[1..] else [[s[0]]] + rest
  }

  lemma {:induction false} ScanSkips(s: string)
    ensures Scan(SkipOthers(s)) == Scan(s)
  {
    if s != "" && !IsTokenChar(s[0]) { ScanSkips(s[1..]); }
  }

  lemma {:induction false} ScanCollapsed(s: string)
    ensures Scan(CollapseOthers(s)) == Scan(s)
    ensures CollapseOthers(s) == "" <==> s == ""
    ensures s != "" && IsTokenChar(s[0]) ==> CollapseOthers(s)[0] == s[0]
    ensures s != "" && !IsTokenChar(s[0]) ==> CollapseOthers(s)[0] == ' '
    decreases |s|
  {
    if s == "" {
    } else if IsTokenChar(s[0]) {
      var r := CollapseOthers(s[1..]);
      ScanCollapsed(s[1..]);
      assert ([s[0]] + r)[1..] == r;
    } else {
      var rest := SkipOthers(s);
      ScanCollapsed(rest);
      ScanSkips(s);
      assert (" " + CollapseOthers(rest))[1..] == CollapseOthers(rest);
    }
  }

  /** A blank between a letter and a digit is where the scanner starts a new token anyway. */
  lemma ScanBlank(a: char, b: char, rest: string)
    requires IsTokenChar(a) && IsTokenChar(b) && !SameKind(a, b)
    ensures Scan([a, ' ', b] + rest) == [[a]] + Scan([b] + rest)
    ensures Scan([a, b] + rest) == [[a]] + Scan([b] + rest)
  {
    assert ([a, ' ', b] + rest)[1..] == [' ', b] + rest;
    assert ([' ', b] + rest)[1..] == [b] + rest;
    assert ([a, b] + rest)[1..] == [b] + rest;
  }

  /** Scanning depends on the rest only through its scan and its first character. */
  lemma ScanCons(c: char, s: string, t: string)
    requires Scan(s) == Scan(t)
    requires (s == "" <==> t == "") && (s != "" ==> s[0] == t[0])
    ensures Scan([c] + s) == Scan([c] + t)
  {
    assert ([c] + s)[1..] == s && ([c] + t)[1..] == t;
  }

  lemma {:induction false} ScanLetterDigit(s: string)
    ensures Scan(SplitLetterDigit(s)) == Scan(s)
    ensures (SplitLetterDigit(s) == "" <==> s == "") && (s != "" ==> SplitLetterDigit(s)[0] == s[0])
    decreases |s|
  {
    if |s| < 2 {
    } else if IsLetter(s[0]) && IsDigit(s[1]) {
      var rest := SplitLetterDigit(s[2..]);
      ScanLetterDigit(s[2..]);
      ScanBlank(s[0], s[1], rest);
      ScanBlank(s[0], s[1], s[2..]);
      ScanCons(s[1], rest, s[2..]);
      assert s == [s[0], s[1]] + s[2..];
    } else {
      ScanLetterDigit(s[1..]);
      ScanCons(s[0], SplitLetterDigit(s[1..]), s[1..]);
      assert s == [s[0]] + s[1..];
    }
  }

  lemma {:induction false} ScanDigitLetter(s: string)
    ensures Scan(SplitDigitLetter(s)) == Scan(s)
    ensures (SplitDigitLetter(s) == "" <==> s == "") && (s != "" ==> SplitDigitLetter(s)[0] == s[0])
    decreases |s|
  {
    if |s| < 2 {
    } else if IsDigit(s[0]) && IsLetter(s[1]) {
      var rest := SplitDigitLetter(s[2..]);
      ScanDigitLetter(s[2..]);
      ScanBlank(s[0], s[1], rest);
      ScanBlank(s[0], s[1], s[2..]);
      ScanCons(s[1], rest, s[2..]);
      assert s == [s[0], s[1]] + s[2..];
    } else {
      ScanDigitLetter(s[1..]);
      ScanCons(s[0], SplitDigitLetter(s[1..]), s[1..]);
      assert s == [s[0]] + s[1..];
    }
  }

  // ---------------------------------------------------------------- text where blanks already separate the runs

  /** Only token characters and blanks. */
  predicate Plain(s: string) { s == "" || ((IsTokenChar(s[0]) || s[0] == ' ') && Plain(s[1..])) }

  /** Plain text in which no letter touches a digit. */
  predicate Separated(s: string) {
    s == "" || ((IsTokenChar(s[0]) || s[0] == ' ') && (|s| > 1 ==> !Touch(s[0], s[1])) && Separated(s[1..]))
  }

  predicate Touch(a: char, b: char) { IsTokenChar(a) && IsTokenChar(b) && !SameKind(a, b) }

  lemma {:induction false} CollapsedIsPlain(s: string)
    ensures Plain(CollapseOthers(s))
    decreases |s|
  {
    if s != "" {
      if IsTokenChar(s[0]) { CollapsedIsPlain(s[1..]); } else { CollapsedIsPlain(SkipOthers(s)); }
    }
  }

  /** Plain text without a digit right after a letter. */
  predicate NoLetterDigit(s: string) {
    s == ""
    || ((IsTokenChar(s[0]) || s[0] == ' ') && (|s| > 1 ==> !(IsLetter(s[0]) && IsDigit(s[1]))) && NoLetterDigit(s[1..]))
  }

  lemma {:induction false} LetterDigitSplit(s: string)
    requires Plain(s)
    ensures NoLetterDigit(SplitLetterDigit(s))
    ensures (SplitLetterDigit(s) == "" <==> s == "") && (s != "" ==> SplitLetterDigit(s)[0] == s[0])
    decreases |s|
  {
    if |s| >= 2 {
      if IsLetter(s[0]) && IsDigit(s[1]) {
        assert s[1..][1..] == s[2..];
        LetterDigitSplit(s[2..]);
        ThreeAhead(s[0], s[1], SplitLetterDigit(s[2..]));
      } else {
        LetterDigitSplit(s[1..]);
        assert ([s[0]] + SplitLetterDigit(s[1..]))[1..] == SplitLetterDigit(s[1..]);
      }
    }
  }

  lemma ThreeAhead(a: char, b: char, rest: string)
    ensures ([a, ' ', b] + rest)[1..] == [' ', b] + rest && ([' ', b] + rest)[1..] == [b] + rest && ([b] + rest)[1..] == rest
  {
  }

  /** The second split makes no new letter-digit pair. */
  lemma {:induction false} DigitLetterSplit(s: string)
    requires NoLetterDigit(s)
    ensures Separated(SplitDigitLetter(s))
    ensures (SplitDigitLetter(s) == "" <==> s == "") && (s != "" ==> SplitDigitLetter(s)[0] == s[0])
    decreases |s|
  {
    if |s| >= 2 {
      if IsDigit(s[0]) && IsLetter(s[1]) {
        assert s[1..][1..] == s[2..];
        DigitLetterSplit(s[2..]);
        ThreeAhead(s[0], s[1], SplitDigitLetter(s[2..]));
      } else {
        DigitLetterSplit(s[1..]);
        assert ([s[0]] + SplitDigitLetter(s[1..]))[1..] == SplitDigitLetter(s[1..]);
      }
    }
  }

  lemma {:induction false} ScanTrimStart(s: string)
    ensures Scan(TrimStart(s)) == Scan(s)
  {
    if s != "" && s[0] == ' ' { ScanTrimStart(s[1..]); }
  }

  lemma {:induction false} ScanTrailingBlank(s: string)
    requires s != "" && s[|s| - 1] == ' '
    ensures Scan(s[..|s| - 1]) == Scan(s)
  {
    if |s| > 1 {
      ScanTrailingBlank(s[1..]);
      assert s[1..][..|s[1..]| - 1] == s[..|s| - 1][1..];
    }
  }

  lemma {:induction false} ScanTrimEnd(s: string)
    ensures Scan(TrimEnd(s)) == Scan(s)
  {
    if s != "" && s[|s| - 1] == ' ' { ScanTrailingBlank(s); ScanTrimEnd(s[..|s| - 1]); }
  }

  lemma {:induction false} SeparatedTrimStart(s: string)
    requires Separated(s)
    ensures Separated(TrimStart(s))
  {
    if s != "" && s[0] == ' ' { SeparatedTrimStart(s[1..]); }
  }

  lemma {:induction false} SeparatedPrefix(s: string)
    requires Separated(s) && s != ""
    ensures Separated(s[..|s| - 1])
  {
    if |s| > 1 {
      SeparatedPrefix(s[1..]);
      assert s[1..][..|s[1..]| - 1] == s[..|s| - 1][1..];
    }
  }

  lemma {:induction false} SeparatedTrimEnd(s: string)
    requires Separated(s)
    ensures Separated(TrimEnd(s))
  {
    if s != "" && s[|s| - 1] == ' ' { SeparatedPrefix(s); SeparatedTrimEnd(s[..|s| - 1]); }
  }

  lemma NonEmptyCons(w: string, ws: seq<string>)
    ensures NonEmpty([w] + ws) == (if w != "" then [w] else []) + NonEmpty(ws)
  {
    assert ([w] + ws)[1..] == ws;
  }

  lemma SplitNext(s: string)
    requires s != "" && s[0] != ' '
    ensures var r := SplitBlanks(s[1..]); SplitBlanks(s) == [[s[0]] + r[0]] + r[1..]
  {
  }

  lemma ScanNext(s: string)
    requires s != "" && IsTokenChar(s[0])
    ensures var rest := Scan(s[1..]);
            Scan(s) == if |s| > 1 && SameKind(s[0], s[1]) then [[s[0]] + rest[0]] + rest[1..] else [[s[0]]] + rest
  {
  }

  lemma SplitStep(s: string)
    requires Separated(s) && s != "" && s[0] != ' '
    requires NonEmpty(SplitBlanks(s[1..])) == Scan(s[1..])
    requires SplitBlanks(s[1..])[0] == "" <==> s[1..] == "" || s[1] == ' '
    ensures NonEmpty(SplitBlanks(s)) == Scan(s) && SplitBlanks(s)[0] != ""
  {
    hide NonEmpty, SplitBlanks, Scan;
    var r := SplitBlanks(s[1..]);
    SplitNext(s);
    ScanNext(s);
    NonEmptyCons([s[0]] + r[0], r[1..]);
    assert r == [r[0]] + r[1..];
    NonEmptyCons(r[0], r[1..]);
    if r[0] == "" {
      assert [s[0]] + r[0] == [s[0]];
    } else {
      assert Scan(s[1..]) == [r[0]] + NonEmpty(r[1..]);
      assert ([r[0]] + NonEmpty(r[1..]))[1..] == NonEmpty(r[1..]);
      assert s[1..][0] == s[1];
    }
  }

  /** Splitting separated text at blanks is scanning it. */
  lemma {:induction false} SplitIsScan(s: string)
    requires Separated(s)
    ensures NonEmpty(SplitBlanks(s)) == Scan(s)
    ensures SplitBlanks(s)[0] == "" <==> s == "" || s[0] == ' '
    decreases |s|
  {
    if s == "" {
    } else if s[0] == ' ' {
      var rest := TrimStart(s);
      SeparatedTrimStart(s);
      ScanTrimStart(s);
      SplitIsScan(rest);
      assert ([""] + SplitBlanks(rest))[1..] == SplitBlanks(rest);
    } else {
      SplitIsScan(s[1..]);
      SplitStep(s);
    }
  }

  /** The pipeline of regular expressions is the scanner, on every text. */
  lemma TokenizeIsScan(s: string)
    ensures TokenizeLowered(s) == Scan(s)
  {
    var a := CollapseOthers(s);
    var b := SplitLetterDigit(a);
    var c := SplitDigitLetter(b);
    ScanCollapsed(s);
    CollapsedIsPlain(s);
    ScanLetterDigit(a);
    LetterDigitSplit(a);
    ScanDigitLetter(b);
    DigitLetterSplit(b);
    ScanTrimStart(c);
    SeparatedTrimStart(c);
    ScanTrimEnd(TrimStart(c));
    SeparatedTrimEnd(TrimStart(c));
    SplitIsScan(TrimEnd(TrimStart(c)));
  }

  // ---------------------------------------------------------------- tokens and their text

  /** `tokens.join(' ')` */
  function Join(ws: seq<string>): string {
    if ws == [] then "" else if |ws| == 1 then ws[0] else ws[0] + " " + Join(ws[1..])
  }

  /** A token: letters only, or digits only. */
  predicate IsToken(w: string) {
    w != "" && IsTokenChar(w[0]) && (|w| > 1 ==> SameKind(w[0], w[1]) && IsToken(w[1..]))
  }

  predicate AllTokens(ws: seq<string>) { ws == [] || (IsToken(ws[0]) && AllTokens(ws[1..])) }

  lemma {:induction false} ScanGivesTokens(s: string)
    ensures AllTokens(Scan(s))
  {
    if s != "" {
      ScanGivesTokens(s[1..]);
      var rest := Scan(s[1..]);
      if IsTokenChar(s[0]) {
        if |s| > 1 && SameKind(s[0], s[1]) {
          assert ([[s[0]] + rest[0]] + rest[1..])[1..] == rest[1..];
          assert ([s[0]] + rest[0])[1..] == rest[0];
        } else {
          assert ([[s[0]]] + rest)[1..] == rest;
        }
      }
    }
  }

  /** A token, followed by nothing or by a blank, is scanned whole. */
  lemma {:induction false} ScanToken(w: string, rest: string)
    requires IsToken(w) && (rest == "" || rest[0] == ' ')
    ensures Scan(w + rest) == [w] + Scan(rest)
    decreases |w|
  {
    assert (w + rest)[1..] == w[1..] + rest;
    if |w| == 1 {
      assert w[1..] + rest == rest && w == [w[0]];
    } else {
      ScanToken(w[1..], rest);
      assert [w[0]] + w[1..] == w;
    }
  }

  lemma {:induction false} ScanJoined(ws: seq<string>)
    requires AllTokens(ws)
    ensures Scan(Join(ws)) == ws
  {
    if |ws| == 1 {
      ScanToken(ws[0], "");
      assert ws[0] + "" == ws[0];
    } else if ws != [] {
      var rest := " " + Join(ws[1..]);
      ScanJoined(ws[1..]);
      ScanToken(ws[0], rest);
      assert rest[1..] == Join(ws[1..]);
      assert ws[0] + " " + Join(ws[1..]) == ws[0] + rest;
    }
  }

  lemma {:induction false} TokensAreLower(ws: seq<string>)
    requires AllTokens(ws)
    ensures Lower(Join(ws)) == Join(ws)
  {
    if ws != [] {
      TokenIsLower(ws[0]);
      TokensAreLower(ws[1..]);
      if |ws| > 1 {
        var tail := " " + Join(ws[1..]);
        assert Lower(ws[0] + tail) == Lower(ws[0]) + Lower(tail);
        assert Lower(tail) == " " + Lower(Join(ws[1..]));
        assert ws[0] + " " + Join(ws[1..]) == ws[0] + tail;
      }
    }
  }

  lemma {:induction false} TokenIsLower(w: string)
    requires IsToken(w)
    ensures Lower(w) == w
  {
    if |w| > 1 { TokenIsLower(w[1..]); }
    assert forall i :: 1 <= i < |w| ==> Lower(w)[i] == Lower(w[1..])[i - 1];
  }

  /** Tokenizing the tokens joined by blanks gives the tokens back. */
  lemma TokenizeJoined(value: string)
    ensures TokenizeClassLabel(Join(TokenizeClassLabel(value))) == TokenizeClassLabel(value)
  {
    var ws := TokenizeClassLabel(value);
    TokenizeIsScan(Lower(value));
    ScanGivesTokens(Lower(value));
    TokensAreLower(ws);
    TokenizeIsScan(Join(ws));
    ScanJoined(ws);
  }

  // ---------------------------------------------------------------- matching

  function ClassLabelMatches(name: Option<string>, query: Option<string>): bool {
    if TextOr(name, "") == "" || TextOr(query, "") == "" then false
    else
      var labelTokens, queryTokens := TokenizeClassLabel(name.value), TokenizeClassLabel(query.value);
      if labelTokens == [] || queryTokens == [] then false
      else if Join(labelTokens) == Join(queryTokens) then true
      else |queryTokens| <= |labelTokens| && forall i :: 0 <= i < |queryTokens| ==> labelTokens[i] == queryTokens[i]
  }

  function TokensOf(text: Option<string>): seq<string> { if text.Some? then TokenizeClassLabel(text.value) else [] }

  /** A label matches a query exactly when the query's tokens, at least one, begin the label's tokens. */
  lemma MatchIsTokenPrefix(name: Option<string>, query: Option<string>)
    ensures ClassLabelMatches(name, query) <==> TokensOf(query) != [] && TokensOf(query) <= TokensOf(name)
  {
    var l, q := TokensOf(name), TokensOf(query);
    TokenizeIsScan("");
    assert Lower("") == "";
    if name.Some? && query.Some? && l != [] && q != [] {
      if Join(l) == Join(q) {
        TokensScanned(name.value);
        TokensScanned(query.value);
        ScanJoined(l);
        ScanJoined(q);
      }
    }
  }

  lemma TokensScanned(value: string)
    ensures AllTokens(TokenizeClassLabel(value))
  {
    TokenizeIsScan(Lower(value));
    ScanGivesTokens(Lower(value));
  }

  /** On labels that have a token, matching is reflexive and transitive, and mutual only between equal token lists. */
  lemma MatchIsPreorder(a: Option<string>, b: Option<string>, c: Option<string>)
    ensures ClassLabelMatches(a, a) <==> TokensOf(a) != []
    ensures ClassLabelMatches(a, b) && ClassLabelMatches(b, c) ==> ClassLabelMatches(a, c)
    ensures ClassLabelMatches(a, b) && ClassLabelMatches(b, a) <==> TokensOf(a) == TokensOf(b) != []
  {
    hide ClassLabelMatches, TokensOf;
    MatchIsTokenPrefix(a, a);
    MatchIsTokenPrefix(a, b);
    MatchIsTokenPrefix(b, a);
    MatchIsTokenPrefix(b, c);
    MatchIsTokenPrefix(a, c);
  }
}
