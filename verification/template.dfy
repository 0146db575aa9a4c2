/** The storage-template language: the token vocabulary and presets of
    `server/src/constants.ts`, and the validation a new template must pass
    before it is accepted as configuration. A template is text in which
    `{{name}}` marks a token; everything else is copied literally. */
module StorageTemplate {
  import opened Common

  const SupportedYearTokens: seq<string> := ["y", "yy"]
  const SupportedMonthTokens: seq<string> := ["M", "MM", "MMM", "MMMM"]
  const SupportedWeekTokens: seq<string> := ["W", "WW"]
  const SupportedDayTokens: seq<string> := ["d", "dd"]
  const SupportedHourTokens: seq<string> := ["h", "hh", "H", "HH"]
  const SupportedMinuteTokens: seq<string> := ["m", "mm"]
  const SupportedSecondTokens: seq<string> := ["s", "ss", "SSS"]

  /** The seven date/time groups, in the order they are declared. */
  const DateTokenGroups: seq<seq<string>> := [
    SupportedYearTokens, SupportedMonthTokens, SupportedWeekTokens, SupportedDayTokens,
    SupportedHourTokens, SupportedMinuteTokens, SupportedSecondTokens
  ]

  const DateTokens: seq<string> :=
    SupportedYearTokens + SupportedMonthTokens + SupportedWeekTokens + SupportedDayTokens
    + SupportedHourTokens + SupportedMinuteTokens + SupportedSecondTokens

  /** Tokens filled from the asset rather than from its date. */
  const AssetTokens: seq<string> := ["filename", "ext", "filetype", "filetypefull", "assetId", "album"]

  const KnownTokens: seq<string> := DateTokens + AssetTokens

  /** A compiled template: literal characters and named tokens. */
  datatype Segment = Literal(c: char) | Token(name: string)

  datatype TemplateError = Unclosed | UnknownToken(name: string)

  predicate IsCloseAt(s: string, j: int) {
    0 <= j && j + 1 < |s| && s[j] == '}' && s[j + 1] == '}'
  }

  /** Position of the first `}}` in `s` at or after `from`. */
  function FindClose(s: string, from: nat): (r: Option<nat>)
    ensures r.Some? ==> from <= r.value && IsCloseAt(s, r.value)
    ensures r.Some? ==> forall j :: from <= j < r.value ==> !IsCloseAt(s, j)
    ensures r.None? ==> forall j :: from <= j ==> !IsCloseAt(s, j)
    decreases |s| - from
  {
    if from + 1 >= |s| then None
    else if IsCloseAt(s, from) then Some(from)
    else FindClose(s, from + 1)
  }

  /** Compile a template: `{{` opens a token that runs to the first `}}`; an
      opening without a closing is an error. */
  function Parse(t: string): Result<seq<Segment>, TemplateError>
    decreases |t|
  {
    if |t| == 0 then Ok([])
    else if |t| >= 2 && t[0] == '{' && t[1] == '{' then
      match FindClose(t, 2)
      case None => Err(Unclosed)
      case Some(k) =>
        match Parse(t[k + 2..])
        case Err(e) => Err(e)
        case Ok(rest) => Ok([Token(t[2..k])] + rest)
    else
      match Parse(t[1..])
      case Err(e) => Err(e)
      case Ok(rest) => Ok([Literal(t[0])] + rest)
  }

  /** The text a compiled template was written as. */
  function Unparse(segs: seq<Segment>): string {
    if |segs| == 0 then ""
    else
      match segs[0]
      case Literal(c) => [c] + Unparse(segs[1..])
      case Token(name) => "{{" + name + "}}" + Unparse(segs[1..])
  }

  lemma UnparseCons(seg: Segment, rest: seq<Segment>)
    ensures Unparse([seg] + rest) == Unparse([seg]) + Unparse(rest)
  {
    assert ([seg] + rest)[1..] == rest;
    assert [seg][1..] == [];
  }

  /** A token followed by text that spells the rest spells the whole. */
  lemma TokenStep(t: string, k: nat, rest: seq<Segment>)
    requires 2 <= k && IsCloseAt(t, k) && t[0] == '{' && t[1] == '{'
    requires Unparse(rest) == t[k + 2..]
    ensures Unparse([Token(t[2..k])] + rest) == t
  {
    UnparseCons(Token(t[2..k]), rest);
    assert Unparse([Token(t[2..k])]) == "{{" + t[2..k] + "}}";
    assert t == "{{" + t[2..k] + "}}" + t[k + 2..];
  }

  /** A literal followed by text that spells the rest spells the whole. */
  lemma LiteralStep(t: string, rest: seq<Segment>)
    requires |t| > 0 && Unparse(rest) == t[1..]
    ensures Unparse([Literal(t[0])] + rest) == t
  {
    UnparseCons(Literal(t[0]), rest);
    assert t == [t[0]] + t[1..];
  }

  /** Compilation loses nothing: the segments spell the template back. */
  lemma {:induction false} ParseUnparse(t: string)
    requires Parse(t).Ok?
    ensures Unparse(Parse(t).value) == t
    decreases |t|
  {
    if |t| == 0 {
    } else if |t| >= 2 && t[0] == '{' && t[1] == '{' {
      var k := FindClose(t, 2).value;
      var rest := Parse(t[k + 2..]).value;
      ParseUnparse(t[k + 2..]);
      TokenStep(t, k, rest);
    } else {
      var rest := Parse(t[1..]).value;
      ParseUnparse(t[1..]);
      LiteralStep(t, rest);
    }
  }

  /** Segments that `Parse` reads back unchanged: no literal `{` (it could
      open a token) and no `}` inside a token name (it could close one early). */
  predicate WellFormed(segs: seq<Segment>) {
    forall i :: 0 <= i < |segs| ==>
      match segs[i]
      case Literal(c) => c != '{'
      case Token(name) => '}' !in name
  }

  lemma FindCloseFirst(s: string, from: nat, k: nat)
    requires from <= k && IsCloseAt(s, k)
    requires forall j :: from <= j < k ==> !IsCloseAt(s, j)
    ensures FindClose(s, from) == Some(k)
  {
  }

  /** The other half of the round trip: writing well-formed segments out and
      compiling the text gives the same segments back. */
  lemma {:induction false} UnparseParse(segs: seq<Segment>)
    requires WellFormed(segs)
    ensures Parse(Unparse(segs)) == Ok(segs)
    decreases |segs|
  {
    if |segs| > 0 {
      var rest := segs[1..];
      assert WellFormed(rest) by {
        forall i | 0 <= i < |rest| ensures match rest[i] case Literal(c) => c != '{' case Token(name) => '}' !in name {
          assert rest[i] == segs[i + 1];
        }
      }
      UnparseParse(rest);
      assert segs == [segs[0]] + rest;
      var t := Unparse(segs);
      match segs[0]
      case Literal(c) =>
        assert c != '{' by { assert segs[0] == Literal(c); }
        assert t == [c] + Unparse(rest);
        assert t[1..] == Unparse(rest);
      case Token(name) =>
        assert '}' !in name by { assert segs[0] == Token(name); }
        var k := |name| + 2;
        assert t == "{{" + name + "}}" + Unparse(rest);
        assert t[2..k] == name;
        assert t[k + 2..] == Unparse(rest);
        forall j | 2 <= j < k ensures !IsCloseAt(t, j) {
          assert t[j] == name[j - 2];
        }
        FindCloseFirst(t, 2, k);
    }
  }

  /** The presets offered for the template setting (`supportedPresetTokens`),
      in declaration order and written in compiled form: `Token("y")` is
      `{{y}}`, `Literal('/')` is `/`. `Preset(i)` is the text of preset `i`. */
  const PresetSegments: seq<seq<Segment>> := [
    [Token("y"), Literal('/'), Token("y"), Literal('-'), Token("MM"), Literal('-'), Token("dd"), Literal('/'), Token("filename")],
    [Token("y"), Literal('/'), Token("MM"), Literal('-'), Token("dd"), Literal('/'), Token("filename")],
    [Token("y"), Literal('/'), Token("MMMM"), Literal('-'), Token("dd"), Literal('/'), Token("filename")],
    [Token("y"), Literal('/'), Token("MM"), Literal('/'), Token("filename")],
    [Token("y"), Literal('/'), Token("MMM"), Literal('/'), Token("filename")],
    [Token("y"), Literal('/'), Token("MMMM"), Literal('/'), Token("filename")],
    [Token("y"), Literal('/'), Token("MM"), Literal('/'), Token("dd"), Literal('/'), Token("filename")],
    [Token("y"), Literal('/'), Token("MMMM"), Literal('/'), Token("dd"), Literal('/'), Token("filename")],
    [Token("y"), Literal('/'), Token("y"), Literal('-'), Token("MM"), Literal('/'), Token("y"), Literal('-'), Token("MM"), Literal('-'), Token("dd"), Literal('/'), Token("filename")],
    [Token("y"), Literal('-'), Token("MM"), Literal('-'), Token("dd"), Literal('/'), Token("filename")],
    [Token("y"), Literal('-'), Token("MMM"), Literal('-'), Token("dd"), Literal('/'), Token("filename")],
    [Token("y"), Literal('-'), Token("MMMM"), Literal('-'), Token("dd"), Literal('/'), Token("filename")],
    [Token("y"), Literal('/'), Token("y"), Literal('-'), Token("MM"), Literal('/'), Token("filename")],
    [Token("y"), Literal('/'), Token("y"), Literal('-'), Token("WW"), Literal('/'), Token("filename")],
    [Token("y"), Literal('/'), Token("y"), Literal('-'), Token("MM"), Literal('-'), Token("dd"), Literal('/'), Token("assetId")],
    [Token("y"), Literal('/'), Token("y"), Literal('-'), Token("MM"), Literal('/'), Token("assetId")],
    [Token("y"), Literal('/'), Token("y"), Literal('-'), Token("WW"), Literal('/'), Token("assetId")],
    [Token("album"), Literal('/'), Token("filename")]
  ]

  function Preset(i: nat): string
    requires i < |PresetSegments|
  {
    Unparse(PresetSegments[i])
  }

  lemma UnparseAppend(a: seq<Segment>, b: seq<Segment>)
    ensures Unparse(a + b) == Unparse(a) + Unparse(b)
  {
    if |a| > 0 {
      assert (a + b)[1..] == a[1..] + b;
      UnparseAppend(a[1..], b);
    } else {
      assert a + b == b;
    }
  }

  /** The token names of a compiled template, in order. */
  function TokenNames(segs: seq<Segment>): (names: seq<string>)
    ensures forall n :: n in names <==> exists i :: 0 <= i < |segs| && segs[i] == Token(n)
  {
    if |segs| == 0 then []
    else
      var rest := TokenNames(segs[1..]);
      assert forall n :: (exists i :: 1 <= i < |segs| && segs[i] == Token(n)) <==>
                         (exists i :: 0 <= i < |segs[1..]| && segs[1..][i] == Token(n)) by {
        forall n | exists i :: 1 <= i < |segs| && segs[i] == Token(n)
          ensures exists i :: 0 <= i < |segs[1..]| && segs[1..][i] == Token(n)
        {
          var i :| 1 <= i < |segs| && segs[i] == Token(n);
          assert segs[1..][i - 1] == Token(n);
        }
      }
      match segs[0]
      case Literal(_) => rest
      case Token(n) => [n] + rest
  }

  /** The first name in `names` that is not in `known`. */
  function FirstUnknown(names: seq<string>, known: seq<string>): (r: Option<string>)
    ensures r.None? <==> forall n :: n in names ==> n in known
    ensures r.Some? ==> r.value in names && r.value !in known
    ensures r.Some? ==> exists i :: 0 <= i < |names| && names[i] == r.value
                          && forall j :: 0 <= j < i ==> names[j] in known
  {
    if |names| == 0 then None
    else if names[0] !in known then Some(names[0])
    else
      var r := FirstUnknown(names[1..], known);
      if r.Some? then
        var i :| 0 <= i < |names[1..]| && names[1..][i] == r.value
                 && forall j :: 0 <= j < i ==> names[1..][j] in known;
        assert names[i + 1] == r.value;
        r
      else r
  }

  /** Accept a template only when it compiles and every token is known. */
  function Validate(template: string): (r: Result<seq<Segment>, TemplateError>)
    ensures r.Ok? <==> Parse(template).Ok? && forall n :: n in TokenNames(Parse(template).value) ==> n in KnownTokens
    ensures r.Ok? ==> Unparse(r.value) == template
    ensures r.Err? && Parse(template).Ok? ==> r.error.UnknownToken? && r.error.name !in KnownTokens
  {
    match Parse(template)
    case Err(e) => Err(e)
    case Ok(segs) =>
      ParseUnparse(template);
      match FirstUnknown(TokenNames(segs), KnownTokens)
      case Some(name) => Err(UnknownToken(name))
      case None => Ok(segs)
  }

  /** The message the configuration layer reports for a rejected template. */
  function ErrorMessage(e: TemplateError): (msg: string)
    ensures StartsWith(msg, "Invalid storage template")
  {
    "Invalid storage template: " +
      match e
      case Unclosed => "unclosed {{"
      case UnknownToken(name) => "\"" + name + "\" is not a supported token"
  }

  /** The tokens presets draw on: the date tokens plus `filename`, `assetId`
      and `album`. */
  const PresetVocabulary: seq<string> := DateTokens + ["filename", "assetId", "album"]

  predicate TokensIn(segs: seq<Segment>, vocabulary: seq<string>) {
    forall j :: 0 <= j < |segs| && segs[j].Token? ==> segs[j].name in vocabulary
  }

  lemma PresetsWellFormed()
    ensures forall i :: 0 <= i < |PresetSegments| ==> WellFormed(PresetSegments[i])
    ensures forall i :: 0 <= i < |PresetSegments| ==> TokensIn(PresetSegments[i], PresetVocabulary)
  {
    PresetsWellFormedOnly();
    PresetsUseVocabulary();
  }

  lemma PresetsWellFormedOnly()
    ensures forall i :: 0 <= i < |PresetSegments| ==> WellFormed(PresetSegments[i])
  {
    VocabularyHasNoBrace();
    PresetsUseVocabulary();
    PresetLiteralsAreSeparators();
    forall i | 0 <= i < |PresetSegments| ensures WellFormed(PresetSegments[i]) {
      var segs := PresetSegments[i];
      assert TokensIn(segs, PresetVocabulary) && SeparatorLiterals(segs);
    }
  }

  lemma VocabularyHasNoBrace()
    ensures forall n :: n in PresetVocabulary ==> '}' !in n
  {
  }

  /** Every literal is `/` or `-`. */
  predicate SeparatorLiterals(segs: seq<Segment>) {
    forall j :: 0 <= j < |segs| && segs[j].Literal? ==> segs[j].c in "/-"
  }

  lemma PresetLiteralsAreSeparators()
    ensures forall i :: 0 <= i < |PresetSegments| ==> SeparatorLiterals(PresetSegments[i])
  {
  }

  lemma PresetsUseVocabulary()
    ensures forall i :: 0 <= i < |PresetSegments| ==> TokensIn(PresetSegments[i], PresetVocabulary)
  {
  }

  /** Every preset is a valid template whose tokens all come from the
      preset vocabulary. */
  lemma PresetsAreValid(i: nat)
    requires i < |PresetSegments|
    ensures Parse(Preset(i)) == Ok(PresetSegments[i])
    ensures forall n :: n in TokenNames(Parse(Preset(i)).value) ==> n in PresetVocabulary
    ensures Validate(Preset(i)).Ok?
  {
    PresetsWellFormed();
    UnparseParse(PresetSegments[i]);
  }

  /** Every preset is a relative path whose last `/`-separated part is the
      file-name or asset-id token; every preset but the album one starts with
      the year, and the album one starts with the album. */
  lemma PresetShape(i: nat)
    requires i < |PresetSegments|
    ensures |Preset(i)| > 0 && Preset(i)[0] != '/'
    ensures EndsWith(Preset(i), "/{{filename}}") || EndsWith(Preset(i), "/{{assetId}}")
    ensures i < |PresetSegments| - 1 ==> StartsWith(Preset(i), "{{y}}")
    ensures i == |PresetSegments| - 1 ==> StartsWith(Preset(i), "{{album}}")
  {
    PresetEdges();
    EdgesOfText(PresetSegments[i]);
  }

  /** What the first and the last two segments of a compiled path say about its text. */
  lemma EdgesOfText(segs: seq<Segment>)
    requires |segs| >= 3 && segs[0].Token? && segs[|segs| - 2] == Literal('/') && segs[|segs| - 1].Token?
    ensures |Unparse(segs)| > 0 && Unparse(segs)[0] == '{'
    ensures segs[0].name == "y" ==> StartsWith(Unparse(segs), "{{y}}")
    ensures segs[0].name == "album" ==> StartsWith(Unparse(segs), "{{album}}")
    ensures segs[|segs| - 1].name == "filename" ==> EndsWith(Unparse(segs), "/{{filename}}")
    ensures segs[|segs| - 1].name == "assetId" ==> EndsWith(Unparse(segs), "/{{assetId}}")
  {
    var head := "{{" + segs[0].name + "}}";
    var tail := "/{{" + segs[|segs| - 1].name + "}}";
    TextStartsWithFirst(segs);
    TextEndsWithLast(segs);
    assert Unparse(segs)[0] == head[0];
    TokenTexts();
  }

  /** The texts of the tokens the presets begin and end with. */
  lemma TokenTexts()
    ensures "{{" + "y" + "}}" == "{{y}}" && "{{" + "album" + "}}" == "{{album}}"
    ensures "/{{" + "filename" + "}}" == "/{{filename}}" && "/{{" + "assetId" + "}}" == "/{{assetId}}"
  {
  }

  lemma UnparseToken(name: string)
    ensures Unparse([Token(name)]) == "{{" + name + "}}"
  {
    assert [Token(name)][1..] == [];
  }

  lemma UnparseSlashToken(name: string)
    ensures Unparse([Literal('/'), Token(name)]) == "/{{" + name + "}}"
  {
    UnparseCons(Literal('/'), [Token(name)]);
    UnparseToken(name);
    assert [Literal('/')][1..] == [];
  }

  lemma TextStartsWithFirst(segs: seq<Segment>)
    requires |segs| >= 1 && segs[0].Token?
    ensures StartsWith(Unparse(segs), "{{" + segs[0].name + "}}")
  {
    var first := segs[0];
    assert segs == [first] + segs[1..];
    UnparseAppend([first], segs[1..]);
    UnparseToken(first.name);
  }

  lemma TextEndsWithLast(segs: seq<Segment>)
    requires |segs| >= 2 && segs[|segs| - 2] == Literal('/') && segs[|segs| - 1].Token?
    ensures EndsWith(Unparse(segs), "/{{" + segs[|segs| - 1].name + "}}")
  {
    var name := segs[|segs| - 1].name;
    var tail := "/{{" + name + "}}";
    var pre := Unparse(segs[..|segs| - 2]);
    var ending := segs[|segs| - 2..];
    assert ending == [Literal('/'), Token(name)] by {
      assert |ending| == 2 && ending[0] == segs[|segs| - 2] && ending[1] == segs[|segs| - 1];
    }
    assert segs == segs[..|segs| - 2] + ending;
    UnparseAppend(segs[..|segs| - 2], ending);
    UnparseSlashToken(name);
    assert Unparse(segs) == pre + tail;
    assert (pre + tail)[|pre + tail| - |tail|..] == tail;
  }

  lemma PresetEdges()
    ensures forall i :: 0 <= i < |PresetSegments| ==> |PresetSegments[i]| >= 3
    ensures forall i :: 0 <= i < |PresetSegments| - 1 ==> PresetSegments[i][0] == Token("y")
    ensures PresetSegments[|PresetSegments| - 1][0] == Token("album")
    ensures forall i :: 0 <= i < |PresetSegments| ==>
      var segs := PresetSegments[i];
      segs[|segs| - 2] == Literal('/') && (segs[|segs| - 1] == Token("filename") || segs[|segs| - 1] == Token("assetId"))
  {
  }

  /** A well-formed template validates exactly when all of its tokens are known. */
  lemma ValidateCompiled(segs: seq<Segment>)
    requires WellFormed(segs)
    ensures Validate(Unparse(segs)).Ok? <==> TokensIn(segs, KnownTokens)
    ensures Validate(Unparse(segs)).Ok? ==> Validate(Unparse(segs)).value == segs
  {
    UnparseParse(segs);
    if TokensIn(segs, KnownTokens) {
      forall n | n in TokenNames(segs) ensures n in KnownTokens {
        var j :| 0 <= j < |segs| && segs[j] == Token(n);
      }
    } else {
      var j :| 0 <= j < |segs| && segs[j].Token? && segs[j].name !in KnownTokens;
      assert segs[j] == Token(segs[j].name);
      assert segs[j].name in TokenNames(segs);
    }
  }

  /** The template using each asset token and one token of each date group is
      accepted. */
  lemma ValidationAcceptsExample()
    ensures Validate(Unparse([
      Token("y"), Token("M"), Token("W"), Token("d"), Token("h"), Token("m"), Token("s"),
      Token("filename"), Token("ext"), Token("filetype"), Token("filetypefull"), Token("assetId"), Token("album")])).Ok?
  {
    var segs := [
      Token("y"), Token("M"), Token("W"), Token("d"), Token("h"), Token("m"), Token("s"),
      Token("filename"), Token("ext"), Token("filetype"), Token("filetypefull"), Token("assetId"), Token("album")];
    assert WellFormed(segs);
    assert TokensIn(segs, KnownTokens);
    ValidateCompiled(segs);
  }

  /** `{{foo}}` is rejected, naming `foo`, with an "Invalid storage template" message. */
  lemma ValidationRejectsExample()
    ensures Validate(Unparse([Token("foo")])) == Err(UnknownToken("foo"))
    ensures StartsWith(ErrorMessage(UnknownToken("foo")), "Invalid storage template")
  {
    assert WellFormed([Token("foo")]);
    UnparseParse([Token("foo")]);
    assert "foo" !in KnownTokens;
  }

  /** The seven date/time groups share no token (compared case-sensitively, so
      `M` and `m`, `h` and `H`, `s` and `S` are different tokens). */
  lemma DateGroupsDisjoint()
    ensures forall i, j, t :: 0 <= i < j < |DateTokenGroups| && t in DateTokenGroups[i] ==> t !in DateTokenGroups[j]
  {
  }
}
