/** Output comparison: exact up to line endings and trailing blanks, equal up to spacing, or different. */
module OutputCompare {
  import opened GoStrings

  datatype Comparison = Exact | WhitespaceOnly | Mismatch

  const CRLF := "\r\n"
  const LF := "\n"
  const BLANKS := {' ', '\t', '\n'}

  /** Every CRLF becomes LF. */
  function ToLF(s: string): string {
    ReplaceAll(s, CRLF, LF)
  }

  /** Every LF becomes CRLF, whatever stands before it. */
  function ToCRLF(s: string): string {
    ReplaceAll(s, LF, CRLF)
  }

  function NormalizeStrict(s: string): string {
    TrimRight(ToLF(s), BLANKS)
  }

  function NormalizeLoose(s: string): string {
    Join(Fields(ToLF(s)), " ")
  }

  function CompareOutput(actual: string, expected: string): Comparison {
    if actual == expected then Exact
    else if NormalizeStrict(actual) == NormalizeStrict(expected) then Exact
    else if NormalizeLoose(actual) == NormalizeLoose(expected) then WhitespaceOnly
    else Mismatch
  }

  // ----- Line endings -----

  predicate StartsCrlf(s: string) {
    |s| >= 2 && s[0] == '\r' && s[1] == '\n'
  }

  /** Unfolds `ToLF` at the front of a string. */
  lemma UnfoldToLF(s: string)
    requires s != ""
    ensures StartsCrlf(s) ==> ToLF(s) == "\n" + ToLF(s[2..])
    ensures !StartsCrlf(s) ==> ToLF(s) == [s[0]] + ToLF(s[1..])
  {
    assert StartsCrlf(s) <==> CRLF <= s by {
      assert StartsCrlf(s) ==> s[..2] == CRLF;
    }
  }

  ghost predicate SplitsCrlf(s: string, t: string) {
    s != "" && s[|s| - 1] == '\r' && t != "" && t[0] == '\n'
  }

  /** Line-ending conversion distributes over concatenation unless the seam falls inside a CRLF. */
  lemma {:induction false} ToLFConcat(s: string, t: string)
    requires !SplitsCrlf(s, t)
    ensures ToLF(s + t) == ToLF(s) + ToLF(t)
    decreases |s|
  {
    if s == "" {
      assert s + t == t;
    } else {
      UnfoldToLF(s);
      UnfoldToLF(s + t);
      if StartsCrlf(s) {
        assert (s + t)[2..] == s[2..] + t;
        ToLFConcat(s[2..], t);
      } else {
        assert !StartsCrlf(s + t);
        assert (s + t)[1..] == s[1..] + t;
        ToLFConcat(s[1..], t);
      }
    }
  }

  lemma {:induction false} ScanOfToLF(s: string, token: string)
    ensures Scan(ToLF(s), token) == Scan(s, token)
    decreases |s|
  {
    if s != "" {
      UnfoldToLF(s);
      if StartsCrlf(s) {
        ScanOfToLF(s[2..], "");
        assert (LF + ToLF(s[2..]))[1..] == ToLF(s[2..]);
        assert s[1..][1..] == s[2..];
        assert Scan(s[1..], "") == Scan(s[2..], "");
      } else {
        assert ([s[0]] + ToLF(s[1..]))[1..] == ToLF(s[1..]);
        if IsSpace(s[0]) {
          ScanOfToLF(s[1..], "");
        } else {
          ScanOfToLF(s[1..], token + [s[0]]);
        }
      }
    }
  }

  /** Neither normalizer changes the list of tokens. */
  lemma TokensSurviveNormalization(s: string)
    ensures Fields(ToLF(s)) == Fields(s)
    ensures Fields(NormalizeStrict(s)) == Fields(s)
    ensures Fields(NormalizeLoose(s)) == Fields(s)
  {
    ScanOfToLF(s, "");
    FieldsOfTrimRight(ToLF(s), BLANKS);
    ScanYieldsTokens(s, "");
    FieldsOfJoin(Fields(s));
  }

  // ----- The comparison levels -----

  /** The loose form sees no difference that the strict form removes. */
  lemma LooseAbsorbsStrict(s: string)
    ensures NormalizeLoose(NormalizeStrict(s)) == NormalizeLoose(s)
    ensures NormalizeLoose(NormalizeLoose(s)) == NormalizeLoose(s)
  {
    TokensSurviveNormalization(s);
    TokensSurviveNormalization(NormalizeStrict(s));
    TokensSurviveNormalization(NormalizeLoose(s));
  }

  /** Each class of `CompareOutput`, in terms of the two things it really looks at. */
  lemma ComparisonCharacterized(a: string, b: string)
    ensures CompareOutput(a, b) == Exact <==> NormalizeStrict(a) == NormalizeStrict(b)
    ensures CompareOutput(a, b) == Mismatch <==> Fields(a) != Fields(b)
    ensures CompareOutput(a, b) == Exact ==> Fields(a) == Fields(b)
  {
    TokensSurviveNormalization(a);
    TokensSurviveNormalization(b);
  }

  /** `CompareOutput` is symmetric; "exact" and "not a mismatch" are equivalence relations, one inside the other. */
  lemma ComparisonIsNestedEquivalence(a: string, b: string, c: string)
    ensures CompareOutput(a, a) == Exact
    ensures CompareOutput(a, b) == CompareOutput(b, a)
    ensures CompareOutput(a, b) == Exact ==> CompareOutput(a, c) == CompareOutput(b, c)
    ensures CompareOutput(a, b) != Mismatch && CompareOutput(b, c) != Mismatch ==> CompareOutput(a, c) != Mismatch
  {
    ComparisonCharacterized(a, b);
    ComparisonCharacterized(b, a);
    ComparisonCharacterized(b, c);
    ComparisonCharacterized(a, c);
  }

  // ----- What the strict form tolerates -----

  predicate IsBlank(c: char) {
    c == ' ' || c == '\t' || c == '\n'
  }

  predicate AllBlank(s: string) {
    forall i | 0 <= i < |s| :: IsBlank(s[i])
  }

  /** A mix of spaces, tabs, LFs and CRLFs. */
  predicate IsBlankMix(s: string)
    decreases |s|
  {
    s == "" || (StartsCrlf(s) && IsBlankMix(s[2..])) || (IsBlank(s[0]) && IsBlankMix(s[1..]))
  }

  lemma {:induction false} BlankMixIsBlank(s: string)
    ensures IsBlankMix(s) <==> AllBlank(ToLF(s))
    decreases |s|
  {
    if s != "" {
      UnfoldToLF(s);
      var n := if StartsCrlf(s) then 2 else 1;
      var c := if StartsCrlf(s) then '\n' else s[0];
      var rest := ToLF(s[n..]);
      BlankMixIsBlank(s[n..]);
      assert ToLF(s) == [c] + rest;
      assert AllBlank(ToLF(s)) <==> IsBlank(c) && AllBlank(rest) by {
        assert forall i | 0 <= i < |rest| :: ToLF(s)[i + 1] == rest[i];
        assert ToLF(s)[0] == c;
      }
    }
  }

  lemma {:induction false} TrimRightDropsBlanks(s: string, w: string)
    requires AllBlank(w)
    ensures TrimRight(s + w, BLANKS) == TrimRight(s, BLANKS)
    decreases |w|
  {
    if w == "" {
      assert s + w == s;
    } else {
      assert (s + w)[..|s + w| - 1] == s + w[..|w| - 1];
      TrimRightDropsBlanks(s, w[..|w| - 1]);
    }
  }

  lemma {:induction false} TrimRightShape(s: string)
    ensures TrimRight(s, BLANKS) <= s
    ensures AllBlank(s[|TrimRight(s, BLANKS)|..])
    decreases |s|
  {
    if s != "" && s[|s| - 1] in BLANKS {
      var front := s[..|s| - 1];
      TrimRightShape(front);
      assert TrimRight(s, BLANKS) == TrimRight(front, BLANKS);
      var n := |TrimRight(s, BLANKS)|;
      assert s[n..] == front[n..] + [s[|s| - 1]];
    }
  }

  /** The strict form is the text with its line endings converted, up to its last character that is neither a
      space nor a tab nor a line feed; nothing else is. */
  lemma StrictFormExactly(s: string, t: string)
    ensures NormalizeStrict(s) <= ToLF(s)
    ensures t <= ToLF(s) ==>
              (t == NormalizeStrict(s)
               <==> AllBlank(ToLF(s)[|t|..]) && (t == "" || !IsBlank(t[|t| - 1])))
  {
    var u, r := ToLF(s), NormalizeStrict(s);
    TrimRightShape(u);
    TrimRightEnds(u);
    if t <= u && |t| < |r| {
      TextIsLeft(u, t, r);
    } else if t <= u && |r| < |t| && !IsBlank(t[|t| - 1]) {
      TextIsLeft(u, r, t);
    }
  }

  lemma TextIsLeft(u: string, t: string, r: string)
    requires t <= u && r <= u && |t| < |r| && !IsBlank(r[|r| - 1])
    ensures !AllBlank(u[|t|..])
  {
    assert u[|t|..][|r| - 1 - |t|] == r[|r| - 1];
  }

  /** Appending spaces, tabs, LFs and CRLFs changes the strict form exactly when it completes a CRLF at the seam. */
  lemma StrictIgnoresTrailingBlanks(s: string, w: string)
    requires IsBlankMix(w)
    ensures NormalizeStrict(s + w) == NormalizeStrict(s) <==> !SplitsCrlf(s, w)
  {
    BlankMixIsBlank(w);
    if !SplitsCrlf(s, w) {
      ToLFConcat(s, w);
      TrimRightDropsBlanks(ToLF(s), ToLF(w));
    } else {
      SeamCrlfIsLost(s, w);
    }
  }

  lemma SeamCrlfIsLost(s: string, w: string)
    requires IsBlankMix(w) && SplitsCrlf(s, w)
    ensures |NormalizeStrict(s + w)| < |NormalizeStrict(s)|
  {
    var u, v := s[..|s| - 1], w[1..];
    assert s == u + "\r" && w == "\n" + v;
    assert !StartsCrlf(w);
    assert IsBlankMix(v);
    ToLFConcat(u, "\r");
    assert ToLF("\r") == "\r";
    assert NormalizeStrict(s) == ToLF(u) + "\r";
    assert s + w == u + (CRLF + v);
    ToLFConcat(u, CRLF + v);
    assert (CRLF + v)[2..] == v;
    BlankMixIsBlank(v);
    assert ToLF(s + w) == ToLF(u) + (LF + ToLF(v));
    TrimRightDropsBlanks(ToLF(u), LF + ToLF(v));
    TrimRightShape(ToLF(u));
  }

  predicate HasCrlf(s: string)
    decreases |s|
  {
    s != "" && (StartsCrlf(s) || HasCrlf(s[1..]))
  }

  function CountCR(s: string): nat {
    if s == "" then 0 else (if s[0] == '\r' then 1 else 0) + CountCR(s[1..])
  }

  lemma {:induction false} ToLFDropsCR(s: string)
    ensures HasCrlf(s) ==> CountCR(ToLF(s)) < CountCR(s) && |ToLF(s)| < |s|
    ensures !HasCrlf(s) ==> ToLF(s) == s
    ensures CountCR(ToLF(s)) <= CountCR(s)
    decreases |s|
  {
    if s != "" {
      UnfoldToLF(s);
      if StartsCrlf(s) {
        ToLFDropsCR(s[2..]);
        assert s[1..][1..] == s[2..];
        assert (LF + ToLF(s[2..]))[1..] == ToLF(s[2..]);
      } else {
        ToLFDropsCR(s[1..]);
        assert ([s[0]] + ToLF(s[1..]))[1..] == ToLF(s[1..]);
      }
    }
  }

  lemma {:induction false} TrimRightKeepsCR(s: string)
    ensures CountCR(TrimRight(s, BLANKS)) == CountCR(s)
    decreases |s|
  {
    if s != "" && s[|s| - 1] in BLANKS {
      TrimRightKeepsCR(s[..|s| - 1]);
      CountCRConcat(s[..|s| - 1], [s[|s| - 1]]);
      assert s == s[..|s| - 1] + [s[|s| - 1]];
    }
  }

  lemma {:induction false} CountCRConcat(s: string, t: string)
    ensures CountCR(s + t) == CountCR(s) + CountCR(t)
    decreases |s|
  {
    if s == "" {
      assert s + t == t;
    } else {
      assert (s + t)[1..] == s[1..] + t;
      CountCRConcat(s[1..], t);
    }
  }

  /** Line-ending conversion undoes its opposite on every string, even one that already has CRLFs. */
  lemma {:induction false} LineEndingRoundTrip(a: string)
    ensures ToLF(ToCRLF(a)) == a
    decreases |a|
  {
    if a != "" {
      LineEndingRoundTrip(a[1..]);
      var rest := ToCRLF(a[1..]);
      if LF <= a {
        assert ToCRLF(a) == CRLF + rest;
        assert (CRLF + rest)[2..] == rest;
        assert LF + a[1..] == a;
      } else {
        assert ToCRLF(a) == [a[0]] + rest;
        assert rest != "" ==> rest[0] != '\n' by {
          if a[1..] != "" && !(LF <= a[1..]) {
            assert rest[0] == a[1];
          }
        }
        assert !StartsCrlf(ToCRLF(a));
        assert ([a[0]] + rest)[1..] == rest;
        assert [a[0]] + a[1..] == a;
      }
    }
  }

  /** Rewriting every LF of an output as CRLF leaves its class against every expected output
      unchanged exactly when the output had no CRLF to begin with. */
  lemma CrlfRewritingIsNeutral(a: string)
    ensures (forall e :: CompareOutput(ToCRLF(a), e) == CompareOutput(a, e)) <==> !HasCrlf(a)
  {
    LineEndingRoundTrip(a);
    ToLFDropsCR(a);
    if HasCrlf(a) {
      TrimRightKeepsCR(a);
      TrimRightKeepsCR(ToLF(a));
      ComparisonCharacterized(a, a);
      ComparisonCharacterized(ToCRLF(a), a);
      assert CompareOutput(ToCRLF(a), a) != CompareOutput(a, a);
    } else {
      forall e ensures CompareOutput(ToCRLF(a), e) == CompareOutput(a, e) {
        ComparisonCharacterized(ToCRLF(a), a);
        ComparisonIsNestedEquivalence(ToCRLF(a), a, e);
      }
    }
  }

  // ----- Idempotence -----

  /** Somewhere CR CR LF is followed by something other than blanks and line ends. */
  predicate DoubledCrBeforeText(s: string)
    decreases |s|
  {
    s != "" && (("\r\r\n" <= s && !IsBlankMix(s[3..])) || DoubledCrBeforeText(s[1..]))
  }

  predicate CrlfBeforeText(s: string)
    decreases |s|
  {
    s != "" && ((StartsCrlf(s) && !AllBlank(s[2..])) || CrlfBeforeText(s[1..]))
  }

  lemma {:induction false} BlankHasNoCrlfBeforeText(s: string)
    requires AllBlank(s)
    ensures !CrlfBeforeText(s) && !HasCrlf(s)
    decreases |s|
  {
    if s != "" {
      assert s[0] in BLANKS;
      BlankHasNoCrlfBeforeText(s[1..]);
    }
  }

  lemma {:induction false} TrimmedCrlf(t: string, w: string)
    requires AllBlank(w) && (t == "" || t[|t| - 1] !in BLANKS)
    ensures CrlfBeforeText(t + w) <==> HasCrlf(t)
    decreases |t|
  {
    if t == "" {
      assert t + w == w;
      BlankHasNoCrlfBeforeText(w);
    } else {
      assert (t + w)[1..] == t[1..] + w;
      TrimmedCrlf(t[1..], w);
      if |t| >= 2 {
        assert (t + w)[2..] == t[2..] + w;
        assert StartsCrlf(t) <==> StartsCrlf(t + w);
        if StartsCrlf(t) {
          assert (t + w)[2..][|t| - 3] == t[|t| - 1];
        }
      } else if StartsCrlf(t + w) {
        assert AllBlank((t + w)[2..]) by {
          assert (t + w)[2..] == w[1..];
        }
      }
    }
  }

  lemma {:induction false} DoubledCrBecomesCrlf(s: string)
    ensures CrlfBeforeText(ToLF(s)) <==> DoubledCrBeforeText(s)
    decreases |s|
  {
    if s != "" {
      UnfoldToLF(s);
      if StartsCrlf(s) {
        DoubledCrBecomesCrlf(s[2..]);
        assert s[1..][1..] == s[2..];
        assert ToLF(s)[1..] == ToLF(s[2..]);
      } else {
        DoubledCrBecomesCrlf(s[1..]);
        assert ToLF(s)[1..] == ToLF(s[1..]);
        if "\r\r\n" <= s {
          assert StartsCrlf(s[1..]) && s[1..][2..] == s[3..];
          assert ToLF(s) == CRLF + ToLF(s[3..]);
          assert ToLF(s)[2..] == ToLF(s[3..]);
          BlankMixIsBlank(s[3..]);
        } else if |s| >= 2 {
          UnfoldToLF(s[1..]);
          assert ToLF(s)[1] == ToLF(s[1..])[0];
        }
      }
    }
  }

  lemma {:induction false} TrimRightEnds(s: string)
    ensures var t := TrimRight(s, BLANKS); t == "" || t[|t| - 1] !in BLANKS
    ensures TrimRight(TrimRight(s, BLANKS), BLANKS) == TrimRight(s, BLANKS)
    decreases |s|
  {
    if s != "" && s[|s| - 1] in BLANKS {
      TrimRightEnds(s[..|s| - 1]);
    }
  }

  /** The strict form is a fixed point of itself exactly when no CR CR LF stands before text. */
  lemma StrictIdempotentExactly(s: string)
    ensures NormalizeStrict(NormalizeStrict(s)) == NormalizeStrict(s) <==> !DoubledCrBeforeText(s)
  {
    var u := ToLF(s);
    var t := NormalizeStrict(s);
    TrimRightShape(u);
    TrimRightEnds(u);
    assert u == t + u[|t|..];
    TrimmedCrlf(t, u[|t|..]);
    DoubledCrBecomesCrlf(s);
    ToLFDropsCR(t);
    TrimRightShape(ToLF(t));
  }

  /** The smallest kind of output on which a second normalization still changes something. */
  lemma StrictNotIdempotentWitness()
    ensures NormalizeStrict("a\r\r\nb") == "a\r\nb"
    ensures NormalizeStrict("a\r\nb") == "a\nb"
  {
    var u := "\r\r\nb";
    assert "a\r\r\nb"[1..] == u && u[1..] == "\r\nb" && "\r\nb"[2..] == "b" && "b"[1..] == "" && "a\r\nb"[1..] == "\r\nb";
    assert ToLF("b") == "b";
    assert ToLF("\r\nb") == "\nb";
    assert ToLF(u) == "\r\nb";
    assert ToLF("a\r\r\nb") == "a\r\nb";
    assert ToLF("a\r\nb") == "a\nb";
  }

  // ----- The shortest matching output -----

  function Crlfs(s: string): nat {
    if s == "" then 0 else (if StartsCrlf(s) then 1 else 0) + Crlfs(s[1..])
  }

  lemma UnfoldCrlfs(c: char, s: string)
    ensures Crlfs([c] + s) == (if c == '\r' && s != "" && s[0] == '\n' then 1 else 0) + Crlfs(s)
  {
    assert ([c] + s)[1..] == s;
  }

  /** Every CRLF loses one character, and no CRLF is gained. */
  lemma {:induction false} ToLFShortens(s: string)
    ensures |ToLF(s)| + Crlfs(s) == |s| && Crlfs(ToLF(s)) <= Crlfs(s)
    decreases |s|
  {
    if s != "" {
      var rest := s[1..];
      UnfoldToLF(s);
      ToLFShortens(rest);
      if StartsCrlf(s) {
        ToLFShortens(s[2..]);
        assert rest[1..] == s[2..];
        UnfoldCrlfs('\n', ToLF(s[2..]));
      } else {
        UnfoldCrlfs(s[0], ToLF(rest));
        if s[0] == '\r' && ToLF(rest) != "" && ToLF(rest)[0] == '\n' {
          UnfoldToLF(rest);
          ToLFShortens(rest[2..]);
          assert rest[1..][1..] == rest[2..];
          UnfoldCrlfs('\n', ToLF(rest[2..]));
        }
      }
    }
  }

  lemma {:induction false} CrlfsOfPrefix(s: string, w: string)
    ensures Crlfs(s) <= Crlfs(s + w)
    decreases |s|
  {
    if s != "" {
      assert (s + w)[1..] == s[1..] + w;
      CrlfsOfPrefix(s[1..], w);
    }
  }

  /** Writes CR before every CRLF, so that line-ending conversion restores the string. */
  function Guarded(s: string): string {
    if s == "" then "" else (if StartsCrlf(s) then "\r" else "") + [s[0]] + Guarded(s[1..])
  }

  lemma ToLFOfDoubledCr(g: string)
    requires g != "" && g[0] == '\n'
    ensures ToLF(['\r'] + (['\r'] + g)) == ['\r'] + ToLF(g)
  {
    var h := ['\r'] + g;
    assert (['\r'] + h)[1..] == h && h[2..] == g[1..];
    UnfoldToLF(['\r'] + h);
    UnfoldToLF(h);
    UnfoldToLF(g);
  }

  lemma {:induction false} ToLFOfGuarded(s: string)
    ensures ToLF(Guarded(s)) == s && |Guarded(s)| == |s| + Crlfs(s)
    ensures s != "" ==> Guarded(s) != "" && Guarded(s)[0] == s[0]
    decreases |s|
  {
    if s != "" {
      var g := Guarded(s[1..]);
      ToLFOfGuarded(s[1..]);
      if StartsCrlf(s) {
        assert Guarded(s) == ['\r'] + (['\r'] + g);
        ToLFOfDoubledCr(g);
      } else {
        assert Guarded(s) == [s[0]] + g && Guarded(s)[1..] == g;
        UnfoldToLF(Guarded(s));
      }
    }
  }

  /** The length of the shortest output that counts as exact. */
  function ShortestMatch(expected: string): nat {
    |NormalizeStrict(expected)| + Crlfs(NormalizeStrict(expected))
  }

  /** No output shorter than that is exact. */
  lemma MatchesAreLongEnough(out: string, expected: string)
    requires NormalizeStrict(out) == NormalizeStrict(expected)
    ensures |out| >= ShortestMatch(expected)
  {
    var u, t := ToLF(out), NormalizeStrict(out);
    ToLFShortens(out);
    TrimRightShape(u);
    assert u == t + u[|t|..];
    CrlfsOfPrefix(t, u[|t|..]);
  }

  /** And one of that length is. */
  lemma ShortestMatchMatches(expected: string)
    ensures var out := Guarded(NormalizeStrict(expected));
            NormalizeStrict(out) == NormalizeStrict(expected) && |out| == ShortestMatch(expected)
  {
    ToLFOfGuarded(NormalizeStrict(expected));
    TrimRightEnds(ToLF(expected));
  }
}
