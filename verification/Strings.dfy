/** The functions of Go's `strings` package that the judge relies on, over strings of code points. */
module GoStrings {

  /** `unicode.IsSpace`. */
  predicate IsSpace(c: char) {
    '\t' <= c <= '\r' || c == ' ' || c == '\U{85}' || c == '\U{A0}' || c == '\U{1680}' ||
    '\U{2000}' <= c <= '\U{200A}' || c == '\U{2028}' || c == '\U{2029}' || c == '\U{202F}' ||
    c == '\U{205F}' || c == '\U{3000}'
  }

  /** `strings.ReplaceAll`: leftmost, non-overlapping occurrences, the replacement is not rescanned. */
  function ReplaceAll(s: string, pat: string, rep: string): string
    requires pat != ""
    decreases |s|
  {
    if s == "" then ""
    else if pat <= s then rep + ReplaceAll(s[|pat|..], pat, rep)
    else [s[0]] + ReplaceAll(s[1..], pat, rep)
  }

  /** `strings.TrimRight`: drops the longest suffix made of characters of the cutset. */
  function TrimRight(s: string, cutset: set<char>): string
    decreases |s|
  {
    if s != "" && s[|s| - 1] in cutset then TrimRight(s[..|s| - 1], cutset) else s
  }

  /** `strings.Fields`: the maximal runs of characters that are not white space. */
  function Fields(s: string): seq<string> {
    Scan(s, "")
  }

  /** `Fields` one character at a time; `token` is the token read so far. */
  function Scan(s: string, token: string): seq<string>
    decreases |s|
  {
    if s == "" then Flush(token)
    else if IsSpace(s[0]) then Flush(token) + Scan(s[1..], "")
    else Scan(s[1..], token + [s[0]])
  }

  function Flush(token: string): seq<string> {
    if token == "" then [] else [token]
  }

  /** `strings.Join`. */
  function Join(parts: seq<string>, sep: string): string {
    if |parts| == 0 then ""
    else if |parts| == 1 then parts[0]
    else parts[0] + sep + Join(parts[1..], sep)
  }

  ghost predicate SpaceFree(s: string) {
    forall i | 0 <= i < |s| :: !IsSpace(s[i])
  }

  ghost predicate IsToken(s: string) {
    s != "" && SpaceFree(s)
  }

  ghost predicate AreTokens(ts: seq<string>) {
    forall i | 0 <= i < |ts| :: IsToken(ts[i])
  }

  // ----- Splitting and joining -----

  /** The code points of white space. */
  predicate IsSpaceCode(n: int) {
    n in {
      0x9, 0xA, 0xB, 0xC, 0xD, 0x20, 0x85, 0xA0, 0x1680, 0x2000, 0x2001, 0x2002, 0x2003, 0x2004, 0x2005, 0x2006, 0x2007,
      0x2008, 0x2009, 0x200A, 0x2028, 0x2029, 0x202F, 0x205F, 0x3000}
  }

  /** White space separates, whatever stands on either side; any other character is part of a token. */
  lemma FieldsSplitExactly(a: string, c: char, b: string)
    ensures IsSpaceCode(c as int) ==> Fields(a + [c] + b) == Fields(a) + Fields(b)
    ensures !IsSpaceCode(c as int) ==> Fields([c]) == [[c]]
  {
    if IsSpaceCode(c as int) {
      assert IsSpace(c);
      ScanSplits(a, c, b, "");
    } else {
      assert !IsSpace(c);
      assert [c][1..] == "" && "" + [c] == [c];
      assert Scan("", [c]) == [[c]];
    }
  }

  lemma {:induction false} ScanSplits(a: string, c: char, b: string, token: string)
    requires IsSpace(c)
    ensures Scan(a + [c] + b, token) == Scan(a, token) + Fields(b)
    decreases |a|
  {
    var s := a + [c] + b;
    if a == "" {
      assert s[1..] == b;
    } else {
      assert s[1..] == a[1..] + [c] + b;
      ScanSplits(a[1..], c, b, if IsSpace(a[0]) then "" else token + [a[0]]);
    }
  }

  lemma {:induction false} ScanYieldsTokens(s: string, token: string)
    requires SpaceFree(token)
    ensures AreTokens(Scan(s, token))
    decreases |s|
  {
    if s != "" {
      if IsSpace(s[0]) {
        ScanYieldsTokens(s[1..], "");
      } else {
        ScanYieldsTokens(s[1..], token + [s[0]]);
      }
    }
  }

  lemma {:induction false} ScanAbsorbsToken(word: string, rest: string, token: string)
    requires SpaceFree(word)
    ensures Scan(word + rest, token) == Scan(rest, token + word)
    decreases |word|
  {
    if word == "" {
      assert word + rest == rest;
      assert token + word == token;
    } else {
      assert (word + rest)[1..] == word[1..] + rest;
      ScanAbsorbsToken(word[1..], rest, token + [word[0]]);
      assert token + [word[0]] + word[1..] == token + word;
    }
  }

  /** Splitting undoes joining with a single space. */
  lemma {:induction false} FieldsOfJoin(ts: seq<string>)
    requires AreTokens(ts)
    ensures Fields(Join(ts, " ")) == ts
    decreases |ts|
  {
    if |ts| == 0 {
    } else if |ts| == 1 {
      ScanAbsorbsToken(ts[0], "", "");
      assert ts[0] + "" == ts[0] && "" + ts[0] == ts[0];
    } else {
      var tail := Join(ts[1..], " ");
      assert Join(ts, " ") == ts[0] + (" " + tail);
      ScanAbsorbsToken(ts[0], " " + tail, "");
      assert "" + ts[0] == ts[0];
      assert (" " + tail)[1..] == tail;
      FieldsOfJoin(ts[1..]);
      assert [ts[0]] + ts[1..] == ts;
    }
  }

  lemma {:induction false} ScanIgnoresTrailingSpace(s: string, c: char, token: string)
    requires IsSpace(c)
    ensures Scan(s + [c], token) == Scan(s, token)
    decreases |s|
  {
    if s == "" {
      assert Scan([c][1..], "") == [];
    } else {
      assert (s + [c])[1..] == s[1..] + [c];
      if IsSpace(s[0]) {
        ScanIgnoresTrailingSpace(s[1..], c, "");
      } else {
        ScanIgnoresTrailingSpace(s[1..], c, token + [s[0]]);
      }
    }
  }

  lemma {:induction false} FieldsOfTrimRight(s: string, cutset: set<char>)
    requires forall c | c in cutset :: IsSpace(c)
    ensures Fields(TrimRight(s, cutset)) == Fields(s)
    decreases |s|
  {
    if s != "" && s[|s| - 1] in cutset {
      FieldsOfTrimRight(s[..|s| - 1], cutset);
      assert s == s[..|s| - 1] + [s[|s| - 1]];
      ScanIgnoresTrailingSpace(s[..|s| - 1], s[|s| - 1], "");
    }
  }
}
