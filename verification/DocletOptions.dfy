/**
 * The doclet's command-line options: fixed defaults, a fold of the `String[][]` option
 * array over them, and the comma-separated opaque lists that the model walker consumes.
 */
module Doclet {
  import opened Wrappers
  import opened Sequences

  const DefaultSwaggerUiZipPath: string := "n/a"

  /** The message of the `IllegalArgumentException` raised for a `-d` path that is not a directory. */
  const NotADirectory: string := "Path after -d is expected to be a directory!"

  /** One strategy of the name translator chain, as configured (its behaviour is not modelled). */
  datatype TranslatorStrategy =
    | AnnotationAware(ignore: string, element: string, elementAttribute: string,
                      rootElement: string, rootElementAttribute: string)
    | NameBased

  /** The default chain: XML binding annotations, then Jackson annotations, then plain names. */
  const DefaultTranslatorChain: seq<TranslatorStrategy> := [
    AnnotationAware("javax.xml.bind.annotation.XmlTransient",
                    "javax.xml.bind.annotation.XmlElement", "name",
                    "javax.xml.bind.annotation.XmlRootElement", "name"),
    AnnotationAware("com.fasterxml.jackson.annotation.JsonIgnore",
                    "com.fasterxml.jackson.annotation.JsonProperty", "value",
                    "com.fasterxml.jackson.annotation.JsonRootName", "value"),
    NameBased
  ]

  /** The value of every option a parse can change. */
  datatype Settings = Settings(
    outputDirectory: Option<string>,
    docBasePath: string,
    apiBasePath: string,
    swaggerUiZipPath: string,
    apiVersion: string,
    typesToTreatAsOpaque: seq<string>,
    packagesToTreatAsOpaque: seq<string>,
    errorTags: seq<string>,
    excludeAnnotationClasses: seq<string>,
    parseModels: bool)

  /** The values a freshly constructed `DocletOptions` holds. */
  function Defaults(): Settings {
    Settings(
      None,
      "http://localhost:8080",
      "http://localhost:8080",
      DefaultSwaggerUiZipPath,
      "0",
      ["org.joda.time.DateTime", "java.util.UUID", "java.lang.Class"],
      ["org.joda.time", "java.math"],
      ["errorResponse", "responseMessage"],
      ["javax.ws.rs.HeaderParam", "javax.ws.rs.core.Context"],
      true)
  }

  // ---------------------------------------------------------------------------------
  // Splitter.on(",").trimResults().omitEmptyStrings()
  // ---------------------------------------------------------------------------------

  /** Guava's `CharMatcher.whitespace()`: the Unicode White_Space characters. */
  predicate IsWhitespace(c: char) {
    || 9 <= c as int <= 13
    || c == ' '
    || c as int == 0x85
    || c as int == 0xA0
    || c as int == 0x1680
    || 0x2000 <= c as int <= 0x200A
    || c as int == 0x2028
    || c as int == 0x2029
    || c as int == 0x202F
    || c as int == 0x205F
    || c as int == 0x3000
  }

  predicate AllWhitespace(s: string) {
    forall i | 0 <= i < |s| :: IsWhitespace(s[i])
  }

  /** No whitespace at either end. */
  predicate Trimmed(s: string) {
    s == [] || (!IsWhitespace(s[0]) && !IsWhitespace(s[|s| - 1]))
  }

  /** The length of the whitespace run that starts `s`. */
  function LeadingWhitespace(s: string): (n: nat)
    ensures n <= |s| && AllWhitespace(s[..n])
    ensures n < |s| ==> !IsWhitespace(s[n])
  {
    if s != [] && IsWhitespace(s[0]) then
      var n := 1 + LeadingWhitespace(s[1..]);
      assert s[..n] == [s[0]] + s[1..][..n - 1];
      n
    else
      0
  }

  /** The length of the whitespace run that ends `s`. */
  function TrailingWhitespace(s: string): (n: nat)
    ensures n <= |s| && AllWhitespace(s[|s| - n..])
    ensures n < |s| ==> !IsWhitespace(s[|s| - n - 1])
  {
    if s != [] && IsWhitespace(s[|s| - 1]) then
      var n := 1 + TrailingWhitespace(s[..|s| - 1]);
      assert s[|s| - n..] == s[..|s| - 1][|s| - n..] + [s[|s| - 1]];
      n
    else
      0
  }

  /** `trimResults()`: the piece without its leading and trailing whitespace. */
  function Trim(s: string): (r: string)
    ensures Trimmed(r)
    ensures exists i, j :: 0 <= i <= j <= |s| && r == s[i..j] && AllWhitespace(s[..i]) && AllWhitespace(s[j..])
  {
    var i := LeadingWhitespace(s);
    var rest := s[i..];
    var k := TrailingWhitespace(rest);
    assert s[i..][|rest| - k..] == s[|s| - k..];
    assert s[i..|s| - k] == rest[..|rest| - k];
    assert |rest| - k > 0 ==> rest[0] == s[i];
    s[i..|s| - k]
  }

  lemma {:induction false} TrimTrimmed(s: string)
    requires Trimmed(s)
    ensures Trim(s) == s
  {
    if s != [] {
      assert LeadingWhitespace(s) == 0;
      assert TrailingWhitespace(s) == 0;
    }
  }

  predicate CommaFree(s: string) {
    forall i | 0 <= i < |s| :: s[i] != ','
  }

  predicate AllCommaFree(pieces: seq<string>) {
    forall i | 0 <= i < |pieces| :: CommaFree(pieces[i])
  }

  /** What `splitElements` can produce: non-empty, no surrounding whitespace, no comma. */
  predicate CleanElement(e: string) {
    e != "" && Trimmed(e) && CommaFree(e)
  }

  predicate AllClean(elements: seq<string>) {
    forall i | 0 <= i < |elements| :: CleanElement(elements[i])
  }

  lemma AllCleanConcat(a: seq<string>, b: seq<string>)
    requires AllClean(a) && AllClean(b)
    ensures AllClean(a + b)
  {
    assert forall i | |a| <= i < |a + b| :: (a + b)[i] == b[i - |a|];
  }

  /** `Splitter.on(",")`: the pieces between commas, empty pieces included. */
  function Pieces(s: string): (r: seq<string>)
    ensures |r| >= 1
    ensures AllCommaFree(r)
  {
    if s == [] then [""]
    else if s[0] == ',' then
      var rest := Pieces(s[1..]);
      assert forall i | 1 <= i < |rest| + 1 :: ([""] + rest)[i] == rest[i - 1];
      [""] + rest
    else
      var rest := Pieces(s[1..]);
      var first := [s[0]] + rest[0];
      assert CommaFree(rest[0]);
      assert forall i | 1 <= i < |first| :: first[i] == rest[0][i - 1];
      assert forall i | 1 <= i < |rest| :: ([first] + rest[1..])[i] == rest[i];
      [first] + rest[1..]
  }

  lemma TrimKeepsCommaFree(s: string)
    requires CommaFree(s)
    ensures CommaFree(Trim(s))
  {
    var i, j :| 0 <= i <= j <= |s| && Trim(s) == s[i..j];
    assert forall k | 0 <= k < j - i :: s[i..j][k] == s[i + k];
  }

  /** `trimResults().omitEmptyStrings()` applied to a sequence of pieces. */
  function TrimAndOmit(pieces: seq<string>): (r: seq<string>)
    ensures forall i | 0 <= i < |r| :: r[i] != "" && Trimmed(r[i])
    ensures AllCommaFree(pieces) ==> AllClean(r)
  {
    if pieces == [] then []
    else
      var rest := TrimAndOmit(pieces[1..]);
      KeptTrimmed(pieces[0], rest);
      assert AllCommaFree(pieces) ==> AllClean(Kept(pieces[0]) + rest) by {
        if AllCommaFree(pieces) {
          assert CommaFree(pieces[0]);
          assert forall i | 0 <= i < |pieces| - 1 :: pieces[1..][i] == pieces[i + 1];
          KeptClean(pieces[0]);
          AllCleanConcat(Kept(pieces[0]), rest);
        }
      }
      Kept(pieces[0]) + rest
  }

  /** What one piece contributes: its trim, unless that trim is empty. */
  function Kept(piece: string): seq<string> {
    var t := Trim(piece);
    if t == "" then [] else [t]
  }

  /** A kept trim is non-empty and trimmed. */
  lemma KeptTrimmed(piece: string, rest: seq<string>)
    requires forall i | 0 <= i < |rest| :: rest[i] != "" && Trimmed(rest[i])
    ensures forall i | 0 <= i < |Kept(piece) + rest| ::
      (Kept(piece) + rest)[i] != "" && Trimmed((Kept(piece) + rest)[i])
  {
    var k := Kept(piece);
    assert forall i | |k| <= i < |k + rest| :: (k + rest)[i] == rest[i - |k|];
  }

  /** The trim of a comma-free piece is clean when kept. */
  lemma KeptClean(piece: string)
    requires CommaFree(piece)
    ensures AllClean(Kept(piece))
  {
    TrimKeepsCommaFree(piece);
  }

  /** `splitElements`: split on `,`, trim each piece and drop the empty ones. */
  function SplitElements(elementStr: string): (r: seq<string>)
    ensures AllClean(r)
  {
    TrimAndOmit(Pieces(elementStr))
  }

  /** The inverse direction: the elements written out with a `,` between neighbours. */
  function Join(elements: seq<string>): string {
    if elements == [] then ""
    else if |elements| == 1 then elements[0]
    else elements[0] + [','] + Join(elements[1..])
  }

  lemma {:induction false} PiecesOfCommaFree(a: string)
    requires CommaFree(a)
    ensures Pieces(a) == [a]
  {
    if a != [] {
      assert a[0] != ',';
      assert CommaFree(a[1..]) by {
        assert forall i | 0 <= i < |a| - 1 :: a[1..][i] == a[i + 1];
      }
      PiecesOfCommaFree(a[1..]);
      assert [a[0]] + a[1..] == a;
    }
  }

  lemma {:induction false} PiecesOfCommaJoined(a: string, b: string)
    requires CommaFree(a)
    ensures Pieces(a + [','] + b) == [a] + Pieces(b)
  {
    if a == [] {
      assert a + [','] + b == [','] + b;
    } else {
      assert a[0] != ',';
      assert CommaFree(a[1..]) by {
        assert forall i | 0 <= i < |a| - 1 :: a[1..][i] == a[i + 1];
      }
      PiecesOfCommaJoined(a[1..], b);
      var s := a + [','] + b;
      assert s[0] == a[0] && s[1..] == a[1..] + [','] + b;
      assert [a[0]] + a[1..] == a;
    }
  }

  lemma {:induction false} PiecesOfJoin(elements: seq<string>)
    requires elements != [] && AllCommaFree(elements)
    ensures Pieces(Join(elements)) == elements
  {
    if |elements| == 1 {
      PiecesOfCommaFree(elements[0]);
    } else {
      assert AllCommaFree(elements[1..]) by {
        assert forall i | 0 <= i < |elements| - 1 :: elements[1..][i] == elements[i + 1];
      }
      PiecesOfJoin(elements[1..]);
      PiecesOfCommaJoined(elements[0], Join(elements[1..]));
    }
  }

  lemma {:induction false} TrimAndOmitClean(elements: seq<string>)
    requires forall i | 0 <= i < |elements| :: elements[i] != "" && Trimmed(elements[i])
    ensures TrimAndOmit(elements) == elements
  {
    if elements != [] {
      var first, rest := elements[0], elements[1..];
      TrimTrimmed(first);
      TrimAndOmitClean(rest);
      assert TrimAndOmit(elements) == [first] + rest;
    }
  }

  /**
   * Order: the pieces are processed left to right, so trimming and omitting a
   * concatenation concatenates the results.
   */
  lemma {:induction false} TrimAndOmitConcat(a: seq<string>, b: seq<string>)
    ensures TrimAndOmit(a + b) == TrimAndOmit(a) + TrimAndOmit(b)
  {
    if a != [] {
      assert (a + b)[0] == a[0];
      assert (a + b)[1..] == a[1..] + b;
      TrimAndOmitConcat(a[1..], b);
      assert TrimAndOmit(a + b) == Kept(a[0]) + TrimAndOmit(a[1..] + b);
      assert TrimAndOmit(a) == Kept(a[0]) + TrimAndOmit(a[1..]);
    } else {
      assert a + b == b;
    }
  }

  /**
   * Completeness, piece by piece: after the kept trims of the first pieces, the next
   * piece adds its trim exactly when that trim is non-empty.
   */
  lemma TrimAndOmitSnoc(pieces: seq<string>, piece: string)
    ensures TrimAndOmit(pieces + [piece]) == TrimAndOmit(pieces) + Kept(piece)
  {
    TrimAndOmitConcat(pieces, [piece]);
    var one := [piece];
    assert one[1..] == [];
    assert TrimAndOmit(one) == Kept(piece) + TrimAndOmit(one[1..]);
    assert Kept(piece) + [] == Kept(piece);
  }

  /** Exactly the non-empty trims of the pieces are kept. */
  lemma {:induction false} TrimAndOmitMembers(pieces: seq<string>, x: string)
    ensures x in TrimAndOmit(pieces) <==> x != "" && exists i | 0 <= i < |pieces| :: Trim(pieces[i]) == x
  {
    if pieces != [] {
      TrimAndOmitMembers(pieces[1..], x);
      assert TrimAndOmit(pieces) == Kept(pieces[0]) + TrimAndOmit(pieces[1..]);
      if x != "" && Trim(pieces[0]) != x && exists i | 0 <= i < |pieces| :: Trim(pieces[i]) == x {
        var i :| 0 <= i < |pieces| && Trim(pieces[i]) == x;
        assert pieces[1..][i - 1] == pieces[i];
      }
      if exists i | 0 <= i < |pieces[1..]| :: Trim(pieces[1..][i]) == x {
        var i :| 0 <= i < |pieces[1..]| && Trim(pieces[1..][i]) == x;
        assert pieces[i + 1] == pieces[1..][i];
      }
    }
  }

  /**
   * Round trip: elements that are non-empty, have no surrounding whitespace and contain
   * no comma are recovered exactly from their comma-joined form.
   */
  lemma {:induction false} SplitJoin(elements: seq<string>)
    requires AllClean(elements)
    ensures SplitElements(Join(elements)) == elements
  {
    if elements == [] {
      assert Pieces("") == [""];
      assert Trim("") == "";
    } else {
      PiecesOfJoin(elements);
      TrimAndOmitClean(elements);
    }
  }

  /**
   * `addOption`: with at least one argument, the split elements of the first one are
   * appended; further arguments are ignored.
   */
  function AddOption(elements: seq<string>, option: seq<string>): (r: seq<string>)
    ensures elements <= r
    ensures |option| <= 1 ==> r == elements
    ensures AllClean(r[|elements|..])
  {
    var args := if |option| > 0 then option[1..] else [];
    if |args| > 0 then
      var r := elements + SplitElements(args[0]);
      assert r[|elements|..] == SplitElements(args[0]);
      r
    else
      assert elements[|elements|..] == [];
      elements
  }

  // ---------------------------------------------------------------------------------
  // DocletOptions.parse
  // ---------------------------------------------------------------------------------

  /** The options whose single value `option[1]` overwrites a field. */
  predicate IsSingleValued(key: string) {
    key in {"-docBasePath", "-apiBasePath", "-apiVersion", "-swaggerUiZipPath"}
  }

  predicate IsKnownKey(key: string) {
    || key == "-d" || IsSingleValued(key)
    || key in {"-excludeAnnotationClasses", "-disableModels", "-errorTags",
               "-typesToTreatAsOpaque", "-packagesToTreatAsOpaque"}
  }

  /** What `parse` reads without checking: `option[0]` always, `option[1]` for the valued keys. */
  predicate WellFormedOption(option: seq<string>) {
    |option| >= 1 && ((option[0] == "-d" || IsSingleValued(option[0])) ==> |option| >= 2)
  }

  predicate WellFormedOptions(options: seq<seq<string>>) {
    forall i | 0 <= i < |options| :: WellFormedOption(options[i])
  }

  /** One iteration of the loop in `parse`. */
  function ApplyOption(s: Settings, option: seq<string>, isDirectory: string -> bool): (r: Result<Settings, string>)
    requires WellFormedOption(option)
    ensures r.Failure? <==> option[0] == "-d" && !isDirectory(option[1])
    ensures r.Failure? ==> r.error == NotADirectory
    ensures !IsKnownKey(option[0]) ==> r == Success(s)
  {
    var key := option[0];
    if key == "-d" then
      if isDirectory(option[1]) then Success(s.(outputDirectory := Some(option[1])))
      else Failure(NotADirectory)
    else if key == "-docBasePath" then Success(s.(docBasePath := option[1]))
    else if key == "-apiBasePath" then Success(s.(apiBasePath := option[1]))
    else if key == "-apiVersion" then Success(s.(apiVersion := option[1]))
    else if key == "-swaggerUiZipPath" then Success(s.(swaggerUiZipPath := option[1]))
    else if key == "-excludeAnnotationClasses" then
      Success(s.(excludeAnnotationClasses := s.excludeAnnotationClasses + option[1..]))
    else if key == "-disableModels" then Success(s.(parseModels := false))
    else if key == "-errorTags" then Success(s.(errorTags := s.errorTags + option[1..]))
    else if key == "-typesToTreatAsOpaque" then
      Success(s.(typesToTreatAsOpaque := AddOption(s.typesToTreatAsOpaque, option)))
    else if key == "-packagesToTreatAsOpaque" then
      Success(s.(packagesToTreatAsOpaque := AddOption(s.packagesToTreatAsOpaque, option)))
    else Success(s)
  }

  /** The options applied in order to `s0`, stopping at the first failure. */
  function ParseFrom(s0: Settings, options: seq<seq<string>>, isDirectory: string -> bool): Result<Settings, string>
    requires WellFormedOptions(options)
  {
    if options == [] then Success(s0)
    else
      match ParseFrom(s0, options[..|options| - 1], isDirectory)
      case Failure(e) => Failure(e)
      case Success(s) => ApplyOption(s, options[|options| - 1], isDirectory)
  }

  /** The result of `DocletOptions.parse(options)`. */
  function ParseOptions(options: seq<seq<string>>, isDirectory: string -> bool): Result<Settings, string>
    requires WellFormedOptions(options)
  {
    ParseFrom(Defaults(), options, isDirectory)
  }

  /** The field a single-valued key overwrites. */
  function SingleValue(s: Settings, key: string): string
    requires IsSingleValued(key)
  {
    if key == "-docBasePath" then s.docBasePath
    else if key == "-apiBasePath" then s.apiBasePath
    else if key == "-apiVersion" then s.apiVersion
    else s.swaggerUiZipPath
  }

  /** `option[1]` of the last option whose key is `key`, or `default` when there is none. */
  function LastValue(options: seq<seq<string>>, key: string, default: string): string
    requires IsSingleValued(key) && WellFormedOptions(options)
  {
    if options == [] then default
    else
      var last := options[|options| - 1];
      if last[0] == key then last[1] else LastValue(options[..|options| - 1], key, default)
  }

  /** All arguments after the key of every option with that key, in order. */
  function ArgumentsOf(options: seq<seq<string>>, key: string): seq<string>
    requires WellFormedOptions(options)
  {
    if options == [] then []
    else
      var last := options[|options| - 1];
      ArgumentsOf(options[..|options| - 1], key) + (if last[0] == key then last[1..] else [])
  }

  /** The split first argument of every option with that key, in order. */
  function SplitArgumentsOf(options: seq<seq<string>>, key: string): seq<string>
    requires WellFormedOptions(options)
  {
    if options == [] then []
    else
      var last := options[|options| - 1];
      SplitArgumentsOf(options[..|options| - 1], key)
        + (if last[0] == key && |last| > 1 then SplitElements(last[1]) else [])
  }

  predicate Occurs(options: seq<seq<string>>, key: string)
    requires WellFormedOptions(options)
  {
    exists i | 0 <= i < |options| :: options[i][0] == key
  }

  lemma OccursStep(options: seq<seq<string>>, key: string)
    requires WellFormedOptions(options) && options != []
    ensures WellFormedOptions(options[..|options| - 1])
    ensures Occurs(options, key) <==> Occurs(options[..|options| - 1], key) || options[|options| - 1][0] == key
  {
    var n := |options| - 1;
    assert forall i | 0 <= i < n :: options[..n][i] == options[i];
  }

  lemma WellFormedPrefix(options: seq<seq<string>>)
    requires WellFormedOptions(options) && options != []
    ensures WellFormedOptions(options[..|options| - 1]) && WellFormedOption(options[|options| - 1])
  {
    assert forall i | 0 <= i < |options| - 1 :: options[..|options| - 1][i] == options[i];
  }

  /** Some `-d` option names a path that is not a directory. */
  predicate HasBadDirectory(options: seq<seq<string>>, isDirectory: string -> bool)
    requires WellFormedOptions(options)
  {
    exists i | 0 <= i < |options| :: options[i][0] == "-d" && !isDirectory(options[i][1])
  }

  lemma HasBadDirectoryStep(options: seq<seq<string>>, isDirectory: string -> bool)
    requires WellFormedOptions(options) && options != []
    ensures WellFormedOptions(options[..|options| - 1])
    ensures var last := options[|options| - 1];
      var bad := last[0] == "-d" && !isDirectory(last[1]);
      HasBadDirectory(options, isDirectory) == (HasBadDirectory(options[..|options| - 1], isDirectory) || bad)
  {
    var n := |options| - 1;
    assert forall i | 0 <= i < n :: options[..n][i] == options[i];
  }

  /** Parsing fails exactly when some `-d` names a path that is not a directory. */
  lemma {:induction false} ParseFailsOnlyOnDirectory(s0: Settings, options: seq<seq<string>>, isDirectory: string -> bool)
    requires WellFormedOptions(options)
    ensures ParseFrom(s0, options, isDirectory).Failure? <==> HasBadDirectory(options, isDirectory)
  {
    if options != [] {
      var n := |options| - 1;
      HasBadDirectoryStep(options, isDirectory);
      ParseFailsOnlyOnDirectory(s0, options[..n], isDirectory);
      var prefix := ParseFrom(s0, options[..n], isDirectory);
      if prefix.Success? {
        assert ParseFrom(s0, options, isDirectory) == ApplyOption(prefix.value, options[n], isDirectory);
      }
    }
  }

  /** The effect of one option on a single-valued field. */
  lemma ApplyOptionSingle(s: Settings, option: seq<string>, isDirectory: string -> bool, key: string)
    requires WellFormedOption(option) && IsSingleValued(key)
    requires ApplyOption(s, option, isDirectory).Success?
    ensures SingleValue(ApplyOption(s, option, isDirectory).value, key)
         == if option[0] == key then option[1] else SingleValue(s, key)
  {
  }

  /** The effect of one option on the model-parsing flag. */
  lemma ApplyOptionParseModels(s: Settings, option: seq<string>, isDirectory: string -> bool)
    requires WellFormedOption(option)
    requires ApplyOption(s, option, isDirectory).Success?
    ensures ApplyOption(s, option, isDirectory).value.parseModels == (s.parseModels && option[0] != "-disableModels")
  {
  }

  /** A single-valued option ends up as the value of its last occurrence, else as it started. */
  lemma {:induction false} LastOccurrenceWins(s0: Settings, options: seq<seq<string>>, isDirectory: string -> bool, key: string)
    requires WellFormedOptions(options) && IsSingleValued(key)
    requires ParseFrom(s0, options, isDirectory).Success?
    ensures SingleValue(ParseFrom(s0, options, isDirectory).value, key) == LastValue(options, key, SingleValue(s0, key))
  {
    if options != [] {
      var n := |options| - 1;
      WellFormedPrefix(options);
      LastOccurrenceWins(s0, options[..n], isDirectory, key);
      var before := ParseFrom(s0, options[..n], isDirectory).value;
      assert ParseFrom(s0, options, isDirectory) == ApplyOption(before, options[n], isDirectory);
      ApplyOptionSingle(before, options[n], isDirectory, key);
    }
  }

  /** The list a list-valued key appends to. */
  function ListValue(s: Settings, key: string): seq<string> {
    if key == "-excludeAnnotationClasses" then s.excludeAnnotationClasses
    else if key == "-errorTags" then s.errorTags
    else if key == "-typesToTreatAsOpaque" then s.typesToTreatAsOpaque
    else s.packagesToTreatAsOpaque
  }

  /** The effect of one option on a list-valued field. */
  lemma ApplyOptionList(s: Settings, option: seq<string>, isDirectory: string -> bool, key: string)
    requires WellFormedOption(option)
    requires key in {"-excludeAnnotationClasses", "-errorTags", "-typesToTreatAsOpaque", "-packagesToTreatAsOpaque"}
    requires ApplyOption(s, option, isDirectory).Success?
    ensures ListValue(ApplyOption(s, option, isDirectory).value, key)
         == if option[0] != key then ListValue(s, key)
            else if key in {"-excludeAnnotationClasses", "-errorTags"} then ListValue(s, key) + option[1..]
            else AddOption(ListValue(s, key), option)
  {
  }

  /** The effect of one option on an opaque list. */
  lemma ApplyOptionSplitList(s: Settings, option: seq<string>, isDirectory: string -> bool, key: string)
    requires WellFormedOption(option)
    requires key == "-typesToTreatAsOpaque" || key == "-packagesToTreatAsOpaque"
    requires ApplyOption(s, option, isDirectory).Success?
    ensures ListValue(ApplyOption(s, option, isDirectory).value, key)
         == ListValue(s, key) + (if option[0] == key && |option| > 1 then SplitElements(option[1]) else [])
  {
    ApplyOptionList(s, option, isDirectory, key);
    if option[0] == key && |option| > 1 {
      assert AddOption(ListValue(s, key), option) == ListValue(s, key) + SplitElements(option[1]);
    }
  }

  /** `-excludeAnnotationClasses` and `-errorTags` append all their arguments, in order. */
  lemma {:induction false} ArgumentsAppended(s0: Settings, options: seq<seq<string>>, isDirectory: string -> bool, key: string)
    requires WellFormedOptions(options)
    requires key == "-excludeAnnotationClasses" || key == "-errorTags"
    requires ParseFrom(s0, options, isDirectory).Success?
    ensures ListValue(ParseFrom(s0, options, isDirectory).value, key) == ListValue(s0, key) + ArgumentsOf(options, key)
  {
    if options != [] {
      WellFormedPrefix(options);
      var n := |options| - 1;
      ArgumentsAppended(s0, options[..n], isDirectory, key);
      var before := ParseFrom(s0, options[..n], isDirectory).value;
      assert ParseFrom(s0, options, isDirectory) == ApplyOption(before, options[n], isDirectory);
      ApplyOptionList(before, options[n], isDirectory, key);
      ConcatAssociative(ListValue(s0, key), ArgumentsOf(options[..n], key),
        if options[n][0] == key then options[n][1..] else []);
    }
  }

  /**
   * `-typesToTreatAsOpaque` and `-packagesToTreatAsOpaque` append the split elements of
   * their first argument, in order.
   */
  lemma {:induction false} SplitArgumentsAppended(s0: Settings, options: seq<seq<string>>, isDirectory: string -> bool, key: string)
    requires WellFormedOptions(options)
    requires key == "-typesToTreatAsOpaque" || key == "-packagesToTreatAsOpaque"
    requires ParseFrom(s0, options, isDirectory).Success?
    ensures ListValue(ParseFrom(s0, options, isDirectory).value, key) == ListValue(s0, key) + SplitArgumentsOf(options, key)
  {
    if options != [] {
      var n := |options| - 1;
      WellFormedPrefix(options);
      SplitArgumentsAppended(s0, options[..n], isDirectory, key);
      var last := options[n];
      var before := ParseFrom(s0, options[..n], isDirectory).value;
      assert ParseFrom(s0, options, isDirectory) == ApplyOption(before, last, isDirectory);
      ApplyOptionSplitList(before, last, isDirectory, key);
      SplitArgumentsStep(options, key);
      var a, b, c := ListValue(s0, key), SplitArgumentsOf(options[..n], key),
        if last[0] == key && |last| > 1 then SplitElements(last[1]) else [];
      assert ListValue(before, key) == a + b;
      assert ListValue(ParseFrom(s0, options, isDirectory).value, key) == (a + b) + c;
      assert SplitArgumentsOf(options, key) == b + c;
      ConcatAssociative(a, b, c);
    }
  }

  /** Every element the opaque-list options contribute is non-empty, trimmed and comma-free. */
  lemma {:induction false} SplitArgumentsClean(options: seq<seq<string>>, key: string)
    requires WellFormedOptions(options)
    ensures AllClean(SplitArgumentsOf(options, key))
  {
    if options != [] {
      var last := options[|options| - 1];
      SplitArgumentsStep(options, key);
      SplitArgumentsClean(options[..|options| - 1], key);
      AllCleanConcat(SplitArgumentsOf(options[..|options| - 1], key),
        if last[0] == key && |last| > 1 then SplitElements(last[1]) else []);
    }
  }

  lemma SplitArgumentsStep(options: seq<seq<string>>, key: string)
    requires WellFormedOptions(options) && options != []
    ensures WellFormedOptions(options[..|options| - 1])
    ensures var last := options[|options| - 1];
      SplitArgumentsOf(options, key)
        == SplitArgumentsOf(options[..|options| - 1], key) + (if last[0] == key && |last| > 1 then SplitElements(last[1]) else [])
  {
  }

  /** `-disableModels` anywhere switches model parsing off; nothing switches it back on. */
  lemma {:induction false} ModelsDisabled(s0: Settings, options: seq<seq<string>>, isDirectory: string -> bool)
    requires WellFormedOptions(options)
    requires ParseFrom(s0, options, isDirectory).Success?
    ensures ParseFrom(s0, options, isDirectory).value.parseModels == (s0.parseModels && !Occurs(options, "-disableModels"))
  {
    if options != [] {
      var n := |options| - 1;
      WellFormedPrefix(options);
      OccursStep(options, "-disableModels");
      ModelsDisabled(s0, options[..n], isDirectory);
      var before := ParseFrom(s0, options[..n], isDirectory).value;
      assert ParseFrom(s0, options, isDirectory) == ApplyOption(before, options[n], isDirectory);
      ApplyOptionParseModels(before, options[n], isDirectory);
    }
  }

  /**
   * What a successful parse from the defaults yields: every default list is a prefix of
   * the parsed list, the opaque lists only gain clean elements, and model parsing is
   * off exactly when `-disableModels` was given.
   */
  lemma ParsedFromDefaults(options: seq<seq<string>>, isDirectory: string -> bool)
    requires WellFormedOptions(options)
    requires ParseOptions(options, isDirectory).Success?
    ensures var s := ParseOptions(options, isDirectory).value;
      && Defaults().excludeAnnotationClasses <= s.excludeAnnotationClasses
      && Defaults().errorTags <= s.errorTags
      && Defaults().typesToTreatAsOpaque <= s.typesToTreatAsOpaque
      && Defaults().packagesToTreatAsOpaque <= s.packagesToTreatAsOpaque
      && AllClean(s.typesToTreatAsOpaque[|Defaults().typesToTreatAsOpaque|..])
      && AllClean(s.packagesToTreatAsOpaque[|Defaults().packagesToTreatAsOpaque|..])
      && (!s.parseModels <==> Occurs(options, "-disableModels"))
  {
    var s := ParseOptions(options, isDirectory).value;
    ArgumentsAppended(Defaults(), options, isDirectory, "-excludeAnnotationClasses");
    ArgumentsAppended(Defaults(), options, isDirectory, "-errorTags");
    SplitArgumentsAppended(Defaults(), options, isDirectory, "-typesToTreatAsOpaque");
    SplitArgumentsAppended(Defaults(), options, isDirectory, "-packagesToTreatAsOpaque");
    SplitArgumentsClean(options, "-typesToTreatAsOpaque");
    SplitArgumentsClean(options, "-packagesToTreatAsOpaque");
    assert s.typesToTreatAsOpaque[|Defaults().typesToTreatAsOpaque|..] == SplitArgumentsOf(options, "-typesToTreatAsOpaque");
    assert s.packagesToTreatAsOpaque[|Defaults().packagesToTreatAsOpaque|..] == SplitArgumentsOf(options, "-packagesToTreatAsOpaque");
    ModelsDisabled(Defaults(), options, isDirectory);
  }

  /** The options object; `parse` builds one and updates its fields option by option. */
  class DocletOptions {
    var outputDirectory: Option<string>
    var docBasePath: string
    var apiBasePath: string
    var swaggerUiZipPath: string
    var apiVersion: string
    var typesToTreatAsOpaque: seq<string>
    var packagesToTreatAsOpaque: seq<string>
    var errorTags: seq<string>
    var excludeAnnotationClasses: seq<string>
    var parseModels: bool
    var translator: seq<TranslatorStrategy>

    /** The current value of every field `parse` can change. */
    function Snapshot(): Settings
      reads this
    {
      Settings(outputDirectory, docBasePath, apiBasePath, swaggerUiZipPath, apiVersion,
               typesToTreatAsOpaque, packagesToTreatAsOpaque, errorTags,
               excludeAnnotationClasses, parseModels)
    }

    constructor ()
      ensures Snapshot() == Defaults()
      ensures translator == DefaultTranslatorChain
    {
      outputDirectory := None;
      docBasePath := "http://localhost:8080";
      apiBasePath := "http://localhost:8080";
      swaggerUiZipPath := DefaultSwaggerUiZipPath;
      apiVersion := "0";
      excludeAnnotationClasses := ["javax.ws.rs.HeaderParam", "javax.ws.rs.core.Context"];
      errorTags := ["errorResponse", "responseMessage"];
      typesToTreatAsOpaque := ["org.joda.time.DateTime", "java.util.UUID", "java.lang.Class"];
      packagesToTreatAsOpaque := ["org.joda.time", "java.math"];
      parseModels := true;
      translator := DefaultTranslatorChain;
    }

    /**
     * One iteration of the loop in `parse`: the field the option's key names is
     * overwritten or appended to; `false` is the exception thrown for a `-d` path that
     * is not a directory.
     */
    method ApplyOne(option: seq<string>, isDirectory: string -> bool) returns (ok: bool)
      requires WellFormedOption(option)
      modifies this
      ensures ok <==> ApplyOption(old(Snapshot()), option, isDirectory).Success?
      ensures ok ==> Snapshot() == ApplyOption(old(Snapshot()), option, isDirectory).value
      ensures translator == old(translator)
    {
      ok := true;
      if option[0] == "-d" {
        outputDirectory := Some(option[1]);
        if !isDirectory(option[1]) {
          ok := false;
        }
      } else if option[0] == "-docBasePath" {
        docBasePath := option[1];
      } else if option[0] == "-apiBasePath" {
        apiBasePath := option[1];
      } else if option[0] == "-apiVersion" {
        apiVersion := option[1];
      } else if option[0] == "-swaggerUiZipPath" {
        swaggerUiZipPath := option[1];
      } else {
        if option[0] == "-excludeAnnotationClasses" {
          excludeAnnotationClasses := excludeAnnotationClasses + option[1..];
        } else if option[0] == "-disableModels" {
          parseModels := false;
        } else if option[0] == "-errorTags" {
          errorTags := errorTags + option[1..];
        } else if option[0] == "-typesToTreatAsOpaque" {
          typesToTreatAsOpaque := AddOption(typesToTreatAsOpaque, option);
        } else if option[0] == "-packagesToTreatAsOpaque" {
          packagesToTreatAsOpaque := AddOption(packagesToTreatAsOpaque, option);
        }
      }
    }

    /**
     * `DocletOptions.parse`. `isDirectory` answers the file-system question asked for
     * the `-d` path; a `Failure` is the `IllegalArgumentException` thrown there.
     */
    static method Parse(options: seq<seq<string>>, isDirectory: string -> bool)
      returns (r: Result<DocletOptions, string>)
      requires WellFormedOptions(options)
      ensures r.Success? <==> ParseOptions(options, isDirectory).Success?
      ensures r.Success? ==>
        && fresh(r.value)
        && r.value.Snapshot() == ParseOptions(options, isDirectory).value
        && r.value.translator == DefaultTranslatorChain
      ensures r.Failure? ==> r.error == NotADirectory
    {
      var parsedOptions := new DocletOptions();
      var i := 0;
      while i < |options|
        invariant 0 <= i <= |options|
        invariant ParseFrom(Defaults(), options[..i], isDirectory).Success?
        invariant parsedOptions.Snapshot() == ParseFrom(Defaults(), options[..i], isDirectory).value
        invariant parsedOptions.translator == DefaultTranslatorChain
      {
        ParseFromStep(options, i, isDirectory);
        var ok := parsedOptions.ApplyOne(options[i], isDirectory);
        if !ok {
          ParseStopsAtFailure(options, i + 1, isDirectory);
          return Failure(NotADirectory);
        }
        i := i + 1;
      }
      assert options[..|options|] == options;
      return Success(parsedOptions);
    }
  }

  /** The loop step of `parse`: one more option applied to the settings so far. */
  lemma ParseFromStep(options: seq<seq<string>>, i: nat, isDirectory: string -> bool)
    requires WellFormedOptions(options) && i < |options|
    requires ParseFrom(Defaults(), options[..i], isDirectory).Success?
    ensures WellFormedOption(options[i])
    ensures ParseFrom(Defaults(), options[..i + 1], isDirectory)
         == ApplyOption(ParseFrom(Defaults(), options[..i], isDirectory).value, options[i], isDirectory)
  {
    assert options[..i + 1][..i] == options[..i];
  }

  /** Once a prefix of the options fails, the whole parse fails. */
  lemma {:induction false} ParseStopsAtFailure(options: seq<seq<string>>, k: nat, isDirectory: string -> bool)
    requires WellFormedOptions(options) && k <= |options|
    requires ParseFrom(Defaults(), options[..k], isDirectory).Failure?
    ensures ParseOptions(options, isDirectory).Failure?
    decreases |options| - k
  {
    if k < |options| {
      assert options[..k + 1][..k] == options[..k];
      ParseStopsAtFailure(options, k + 1, isDirectory);
    } else {
      assert options[..k] == options;
    }
  }
}
