/** Placeholder substitution in the command lines of a language definition. */
module RenderArgs {
  import opened GoStrings
  import opened Types

  const SOURCE := "{{source}}"
  const ARTIFACT := "{{artifact}}"

  /** One template entry: the source placeholder first, then the artifact placeholder in what results. */
  function RenderEntry(entry: string, source: string, artifact: string): string {
    ReplaceAll(ReplaceAll(entry, SOURCE, source), ARTIFACT, artifact)
  }

  function RenderEntries(template: seq<string>, source: string, artifact: string): seq<string> {
    seq(|template|, i requires 0 <= i < |template| => RenderEntry(template[i], source, artifact))
  }

  function RenderAll(template: seq<string>, lang: Language, userFlags: seq<string>): seq<string> {
    RenderEntries(template, lang.sourceFile, lang.artifact) + userFlags
  }

  /** The command line handed to the sandbox: one argument per template entry, then the user's flags. */
  method Render(template: seq<string>, lang: Language, userFlags: seq<string>) returns (out: seq<string>)
    ensures out == RenderAll(template, lang, userFlags)
    ensures |out| == |template| + |userFlags|
    ensures out[|template|..] == userFlags
  {
    out := [];
    for i := 0 to |template|
      invariant |out| == i
      invariant forall j | 0 <= j < i :: out[j] == RenderEntry(template[j], lang.sourceFile, lang.artifact)
    {
      var a := template[i];
      a := ReplaceAll(a, SOURCE, lang.sourceFile);
      a := ReplaceAll(a, ARTIFACT, lang.artifact);
      out := out + [a];
    }
    assert out == RenderEntries(template, lang.sourceFile, lang.artifact);
    out := out + userFlags;
  }

  // ----- One-pass substitution -----

  /** Both placeholders substituted in a single left-to-right pass; substituted text is never looked at again. */
  function SubstituteOnce(entry: string, source: string, artifact: string): string
    decreases |entry|
  {
    if entry == "" then ""
    else if SOURCE <= entry then source + SubstituteOnce(entry[|SOURCE|..], source, artifact)
    else if ARTIFACT <= entry then artifact + SubstituteOnce(entry[|ARTIFACT|..], source, artifact)
    else [entry[0]] + SubstituteOnce(entry[1..], source, artifact)
  }

  predicate BraceFree(s: string) {
    forall i | 0 <= i < |s| :: s[i] != '{' && s[i] != '}'
  }

  /** The number of positions where substituting the source name puts together an artifact
      placeholder that the template did not have. */
  function Splices(entry: string, source: string): nat
    decreases |entry|
  {
    if entry == "" then 0
    else if SOURCE <= entry then Splices(entry[|SOURCE|..], source)
    else if ARTIFACT <= entry then Splices(entry[|ARTIFACT|..], source)
    else (if ARTIFACT <= ReplaceAll(entry, SOURCE, source) then 1 else 0) + Splices(entry[1..], source)
  }

  function Braces(s: string): nat {
    if s == "" then 0 else (if s[0] == '{' || s[0] == '}' then 1 else 0) + Braces(s[1..])
  }

  lemma {:induction false} BracesConcat(s: string, t: string)
    ensures Braces(s + t) == Braces(s) + Braces(t)
    decreases |s|
  {
    if s == "" {
      assert s + t == t;
    } else {
      assert (s + t)[1..] == s[1..] + t;
      BracesConcat(s[1..], t);
    }
  }

  lemma {:induction false} NoBraces(s: string)
    ensures Braces(s) == 0 <==> BraceFree(s)
    decreases |s|
  {
    if s != "" {
      NoBraces(s[1..]);
      assert BraceFree(s) <==> s[0] != '{' && s[0] != '}' && BraceFree(s[1..]) by {
        assert forall i | 0 <= i < |s| - 1 :: s[1..][i] == s[i + 1];
        assert forall i | 1 <= i < |s| :: s[i] == s[1..][i - 1];
      }
    }
  }

  /** A prefix in which no occurrence of the pattern starts is copied as it stands. */
  lemma {:induction false} CopyPrefix(x: string, y: string, pat: string, rep: string)
    requires pat != ""
    requires forall i | 0 <= i < |x| :: !(pat <= (x + y)[i..])
    ensures ReplaceAll(x + y, pat, rep) == x + ReplaceAll(y, pat, rep)
    decreases |x|
  {
    if x == "" {
      assert x + y == y;
    } else {
      assert (x + y)[1..] == x[1..] + y;
      assert !(pat <= (x + y)[0..]) && (x + y)[0..] == x + y;
      forall i | 0 <= i < |x[1..]| ensures !(pat <= (x[1..] + y)[i..]) {
        assert (x[1..] + y)[i..] == (x + y)[i + 1..];
      }
      CopyPrefix(x[1..], y, pat, rep);
    }
  }

  lemma CopyBraceFree(x: string, y: string, pat: string, rep: string)
    requires pat != "" && pat[0] == '{' && BraceFree(x)
    ensures ReplaceAll(x + y, pat, rep) == x + ReplaceAll(y, pat, rep)
  {
    forall i | 0 <= i < |x| ensures !(pat <= (x + y)[i..]) {
      assert (x + y)[i..][0] == x[i];
    }
    CopyPrefix(x, y, pat, rep);
  }

  lemma ReplaceFront(y: string, pat: string, rep: string)
    requires pat != ""
    ensures ReplaceAll(pat + y, pat, rep) == rep + ReplaceAll(y, pat, rep)
  {
    assert pat <= pat + y && (pat + y)[|pat|..] == y;
  }

  /** Substituting the source name never damages an artifact placeholder of the template. */
  lemma CopyArtifact(y: string, rep: string)
    ensures ReplaceAll(ARTIFACT + y, SOURCE, rep) == ARTIFACT + ReplaceAll(y, SOURCE, rep)
  {
    var s := ARTIFACT + y;
    forall i | 0 <= i < |ARTIFACT| ensures !(SOURCE <= s[i..]) {
      assert s[i..][0] == ARTIFACT[i];
      assert i < 2 ==> s[i..][2 - i] == ARTIFACT[2] == 'a' && SOURCE[2] == 's' && SOURCE[1] == '{';
    }
    CopyPrefix(ARTIFACT, y, SOURCE, rep);
  }

  /** Rendering an entry, one template position at a time. */
  lemma RenderFront(entry: string, source: string, artifact: string)
    requires entry != "" && BraceFree(source)
    ensures SOURCE <= entry ==> RenderEntry(entry, source, artifact) == source + RenderEntry(entry[|SOURCE|..], source, artifact)
    ensures !(SOURCE <= entry) && ARTIFACT <= entry ==>
              RenderEntry(entry, source, artifact) == artifact + RenderEntry(entry[|ARTIFACT|..], source, artifact)
    ensures !(SOURCE <= entry) && !(ARTIFACT <= entry) && !(ARTIFACT <= ReplaceAll(entry, SOURCE, source)) ==>
              RenderEntry(entry, source, artifact) == [entry[0]] + RenderEntry(entry[1..], source, artifact)
  {
    if SOURCE <= entry {
      CopyBraceFree(source, ReplaceAll(entry[|SOURCE|..], SOURCE, source), ARTIFACT, artifact);
    } else if ARTIFACT <= entry {
      var rest := entry[|ARTIFACT|..];
      assert entry == ARTIFACT + rest;
      CopyArtifact(rest, source);
      ReplaceFront(ReplaceAll(rest, SOURCE, source), ARTIFACT, artifact);
    } else {
      var u := ReplaceAll(entry, SOURCE, source);
      assert u == [entry[0]] + ReplaceAll(entry[1..], SOURCE, source);
      assert u[1..] == ReplaceAll(entry[1..], SOURCE, source);
    }
  }

  lemma {:induction false} NoSpliceMeansOnePass(entry: string, source: string, artifact: string)
    requires BraceFree(source) && Splices(entry, source) == 0
    ensures RenderEntry(entry, source, artifact) == SubstituteOnce(entry, source, artifact)
    decreases |entry|
  {
    if entry != "" {
      RenderFront(entry, source, artifact);
      var n := if SOURCE <= entry then |SOURCE| else if ARTIFACT <= entry then |ARTIFACT| else 1;
      NoSpliceMeansOnePass(entry[n..], source, artifact);
    }
  }

  // ----- Counting braces: a splice always costs braces -----

  function Occurrences(s: string, pat: string): nat {
    if s == "" then 0 else (if pat <= s then 1 else 0) + Occurrences(s[1..], pat)
  }

  lemma {:induction false} OccurrencesSkip(x: string, y: string, pat: string)
    requires pat != ""
    requires forall i | 0 <= i < |x| :: !(pat <= (x + y)[i..])
    ensures Occurrences(x + y, pat) == Occurrences(y, pat)
    decreases |x|
  {
    if x == "" {
      assert x + y == y;
    } else {
      assert (x + y)[1..] == x[1..] + y;
      assert !(pat <= (x + y)[0..]) && (x + y)[0..] == x + y;
      forall i | 0 <= i < |x[1..]| ensures !(pat <= (x[1..] + y)[i..]) {
        assert (x[1..] + y)[i..] == (x + y)[i + 1..];
      }
      OccurrencesSkip(x[1..], y, pat);
    }
  }

  lemma OccurrencesFront(y: string)
    ensures Occurrences(ARTIFACT + y, ARTIFACT) == 1 + Occurrences(y, ARTIFACT)
  {
    var s := ARTIFACT + y;
    assert ARTIFACT <= s;
    var x := ARTIFACT[1..];
    assert s[1..] == x + y;
    forall i | 0 <= i < |x| ensures !(ARTIFACT <= (x + y)[i..]) {
      assert (x + y)[i..][0] == x[i];
    }
    OccurrencesSkip(x, y, ARTIFACT);
  }

  lemma OccurrencesAfterBraceFree(x: string, y: string)
    requires BraceFree(x)
    ensures Occurrences(x + y, ARTIFACT) == Occurrences(y, ARTIFACT)
  {
    forall i | 0 <= i < |x| ensures !(ARTIFACT <= (x + y)[i..]) {
      assert (x + y)[i..][0] == x[i];
    }
    OccurrencesSkip(x, y, ARTIFACT);
  }

  lemma PlaceholderBraces(name: string)
    requires BraceFree(name)
    ensures Braces("{{" + name + "}}") == 4
  {
    NoBraces(name);
    BracesConcat("{{", name);
    BracesConcat("{{" + name, "}}");
    assert Braces("{{"[1..]) == 1 && Braces("}}"[1..]) == 1;
  }

  lemma ArtifactBraces()
    ensures Braces(ARTIFACT) == 4
  {
    PlaceholderBraces("artifact");
    assert "{{" + "artifact" + "}}" == ARTIFACT;
  }

  lemma {:induction false} BracesOfReplace(s: string, artifact: string)
    requires BraceFree(artifact)
    ensures Braces(s) == Braces(ReplaceAll(s, ARTIFACT, artifact)) + 4 * Occurrences(s, ARTIFACT)
    decreases |s|
  {
    if s == "" {
    } else if ARTIFACT <= s {
      var y := s[|ARTIFACT|..];
      assert s == ARTIFACT + y;
      BracesOfReplace(y, artifact);
      OccurrencesFront(y);
      ArtifactBraces();
      BracesConcat(ARTIFACT, y);
      NoBraces(artifact);
      BracesConcat(artifact, ReplaceAll(y, ARTIFACT, artifact));
    } else {
      BracesOfReplace(s[1..], artifact);
      var r := ReplaceAll(s[1..], ARTIFACT, artifact);
      assert ([s[0]] + r)[1..] == r;
    }
  }

  /** What one-pass substitution leaves and what it consumes, against the source-substituted entry. */
  lemma {:induction false} BracesOfSubstitution(entry: string, source: string, artifact: string)
    requires BraceFree(source) && BraceFree(artifact)
    ensures var u := ReplaceAll(entry, SOURCE, source);
            Braces(u) + 4 * Splices(entry, source)
            == Braces(SubstituteOnce(entry, source, artifact)) + 4 * Occurrences(u, ARTIFACT)
    decreases |entry|
  {
    if entry == "" {
    } else if SOURCE <= entry {
      var rest := entry[|SOURCE|..];
      BracesOfSubstitution(rest, source, artifact);
      NoBraces(source);
      BracesConcat(source, ReplaceAll(rest, SOURCE, source));
      BracesConcat(source, SubstituteOnce(rest, source, artifact));
      OccurrencesAfterBraceFree(source, ReplaceAll(rest, SOURCE, source));
    } else if ARTIFACT <= entry {
      var rest := entry[|ARTIFACT|..];
      assert entry == ARTIFACT + rest;
      BracesOfSubstitution(rest, source, artifact);
      CopyArtifact(rest, source);
      OccurrencesFront(ReplaceAll(rest, SOURCE, source));
      ArtifactBraces();
      NoBraces(artifact);
      BracesConcat(ARTIFACT, ReplaceAll(rest, SOURCE, source));
      BracesConcat(artifact, SubstituteOnce(rest, source, artifact));
    } else {
      BracesOfSubstitution(entry[1..], source, artifact);
      var v := ReplaceAll(entry[1..], SOURCE, source);
      assert ([entry[0]] + v)[1..] == v;
      var w := SubstituteOnce(entry[1..], source, artifact);
      assert ([entry[0]] + w)[1..] == w;
    }
  }

  /** Rendering is simultaneous substitution exactly when substituting the source name puts no new
      artifact placeholder together. */
  lemma RenderIsOnePassExactly(entry: string, source: string, artifact: string)
    requires IsSafeName(source) && (artifact == "" || IsSafeName(artifact))
    ensures RenderEntry(entry, source, artifact) == SubstituteOnce(entry, source, artifact) <==> Splices(entry, source) == 0
  {
    assert BraceFree(source) && BraceFree(artifact);
    if Splices(entry, source) == 0 {
      NoSpliceMeansOnePass(entry, source, artifact);
    } else {
      BracesOfSubstitution(entry, source, artifact);
      BracesOfReplace(ReplaceAll(entry, SOURCE, source), artifact);
    }
  }

  /** Two literal braces before the source placeholder are not part of it. */
  lemma CopyTwoBraces(tail: string, source: string)
    ensures var entry := "{{" + (SOURCE + tail);
            && !(SOURCE <= entry) && !(ARTIFACT <= entry)
            && ReplaceAll(entry, SOURCE, source) == "{{" + (source + ReplaceAll(tail, SOURCE, source))
  {
    var entry := "{{" + (SOURCE + tail);
    assert entry[2] == SOURCE[0] && entry[3] == SOURCE[1];
    assert forall i | 0 <= i < 2 :: entry[i..][2] == entry[i + 2] == '{';
    assert entry[0..] == entry;
    CopyPrefix("{{", SOURCE + tail, SOURCE, source);
    ReplaceFront(tail, SOURCE, source);
  }

  lemma CopyClosing(name: string, source: string)
    requires BraceFree(name)
    ensures ReplaceAll(name + "}}", SOURCE, source) == name + "}}"
  {
    CopyBraceFree(name, "}}", SOURCE, source);
    assert "}}"[1..] == "}" && "}"[1..] == "";
  }

  /** Template entries that two passes get wrong: a source name that starts the word "artifact",
      placed between two literal braces and the rest of that word, completes a placeholder. */
  lemma NestedBracesWitness(source: string, rest: string, artifact: string)
    requires source + rest == "artifact" && IsSafeName(source) && (artifact == "" || IsSafeName(artifact))
    ensures var entry := "{{" + (SOURCE + (rest + "}}"));
            RenderEntry(entry, source, artifact) != SubstituteOnce(entry, source, artifact)
  {
    var tail := rest + "}}";
    var entry := "{{" + (SOURCE + tail);
    assert BraceFree(rest) by {
      assert forall i | 0 <= i < |rest| :: rest[i] == (source + rest)[|source| + i];
    }
    CopyTwoBraces(tail, source);
    CopyClosing(rest, source);
    assert "{{" + (source + tail) == "{{" + (source + rest) + "}}" == ARTIFACT;
    assert Splices(entry, source) >= 1;
    RenderIsOnePassExactly(entry, source, artifact);
  }

  // ----- Templates as they are written -----

  /** A piece of a template entry: literal text or one of the two placeholders. */
  datatype Piece = Literal(text: string) | SourceName | ArtifactName

  function Written(pieces: seq<Piece>): string {
    if pieces == [] then ""
    else (match pieces[0] case Literal(t) => t case SourceName => "{{source}}" case ArtifactName => "{{artifact}}") + Written(pieces[1..])
  }

  function Meant(pieces: seq<Piece>, source: string, artifact: string): string {
    if pieces == [] then ""
    else (match pieces[0] case Literal(t) => t case SourceName => source case ArtifactName => artifact)
         + Meant(pieces[1..], source, artifact)
  }

  predicate PlainLiterals(pieces: seq<Piece>) {
    forall i | 0 <= i < |pieces| :: pieces[i].Literal? ==> BraceFree(pieces[i].text)
  }

  /** An entry written from brace-free literals and the two placeholders renders to what it means,
      and nothing of the template syntax is left in the argument. */
  lemma {:induction false} TemplatesMeanWhatTheySay(pieces: seq<Piece>, source: string, artifact: string)
    requires PlainLiterals(pieces)
    requires IsSafeName(source) && (artifact == "" || IsSafeName(artifact))
    ensures RenderEntry(Written(pieces), source, artifact) == Meant(pieces, source, artifact)
    ensures BraceFree(Meant(pieces, source, artifact))
    decreases |pieces|
  {
    if pieces != [] {
      var rest := Written(pieces[1..]);
      TemplatesMeanWhatTheySay(pieces[1..], source, artifact);
      var u := ReplaceAll(rest, SOURCE, source);
      match pieces[0] {
        case Literal(t) =>
          assert BraceFree(t);
          CopyBraceFree(t, rest, SOURCE, source);
          CopyBraceFree(t, u, ARTIFACT, artifact);
        case SourceName =>
          ReplaceFront(rest, SOURCE, source);
          CopyBraceFree(source, u, ARTIFACT, artifact);
        case ArtifactName =>
          CopyArtifact(rest, source);
          ReplaceFront(u, ARTIFACT, artifact);
      }
    }
  }
}
