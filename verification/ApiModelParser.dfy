/**
 * The model walker of `ApiModelParser`: starting from a root type, it follows each
 * member's type and that type's first type argument, and stores one `Model` per
 * non-terminal type with at least one named non-static member (field or method),
 * skipping types whose translated name is already stored.
 *
 * The side-effect-free parts of the walker are stated first as functions; the class
 * `ApiModelParser` at the end does the work the way the Java class does (loops, a
 * growing model collection, mutual recursion between `ParseModel` and
 * `ParseNestedModels`) and is proved equal to those functions.
 */
module Parser {
  import opened Wrappers
  import opened Javadoc
  import opened Sequences
  import Doclet

  /**
   * The translator consulted for names: `typeName`, `fieldName` and `methodName`,
   * each already unwrapped through `value()`, with `None` for a null name.
   */
  datatype Translator = Translator(
    typeName: TypeId -> Option<string>,
    fieldName: FieldDoc -> Option<string>,
    methodName: MethodDoc -> Option<string>)

  /** A model property: the enum form lists the enum constants, the typed form names a type. */
  datatype Property =
    | EnumProperty(allowableValues: seq<string>, description: string)
    | TypedProperty(typeName: Option<string>, description: string, containerOf: Option<string>)

  datatype Model = Model(id: Option<string>, properties: map<string, Property>)

  /** `TypeHolder`: the declared type of a member and its description. */
  datatype TypeHolder = TypeHolder(holderType: TypeId, description: string)

  /** One entry of the insertion-ordered map built by `findReferencedTypes`. */
  datatype Entry = Entry(name: string, holder: TypeHolder)

  /** Everything the walker consults but never changes. */
  datatype Context = Context(
    u: Universe,
    tr: Translator,
    opaqueTypes: seq<string>,
    opaquePackages: seq<string>)

  predicate ValidContext(ctx: Context) {
    WellFormed(ctx.u)
  }

  // ---------------------------------------------------------------------------
  // Terminal types

  /**
   * `startsWithAny`: some prefix in the list is non-empty and starts the name.
   */
  function StartsWithAny(prefixes: seq<string>, name: string): (r: bool)
    ensures r <==> exists i | 0 <= i < |prefixes| :: prefixes[i] != "" && prefixes[i] <= name
  {
    if prefixes == [] then false
    else if prefixes[0] != "" && prefixes[0] <= name then true
    else
      var rest := StartsWithAny(prefixes[1..], name);
      assert rest ==> exists i | 0 <= i < |prefixes| :: prefixes[i] != "" && prefixes[i] <= name by {
        if rest {
          var j :| 0 <= j < |prefixes[1..]| && prefixes[1..][j] != "" && prefixes[1..][j] <= name;
          assert prefixes[j + 1] == prefixes[1..][j];
        }
      }
      rest
  }

  /** The guard at the top of `parseModel`: types the walker never opens. */
  predicate IsTerminal(ctx: Context, t: TypeId)
    requires ValidType(ctx.u, t)
  {
    var info := ctx.u.types[t];
    var name := info.qualifiedName;
    || info.isPrimitive
    || "javax." <= name
    || name == "java.lang.Object"
    || name in ctx.opaqueTypes
    || StartsWithAny(ctx.opaquePackages, name)
    || info.classDoc.None?
  }

  // ---------------------------------------------------------------------------
  // Stored models

  function Ids(ms: seq<Model>): set<Option<string>> {
    set k | 0 <= k < |ms| :: ms[k].id
  }

  /**
   * `alreadyStoredType`. Guava's filtered view applies `model.getId().equals(name)`
   * to every stored model, so one model with a null id makes the query throw; that
   * outcome is `None`.
   */
  function AlreadyStoredType(ms: seq<Model>, name: Option<string>): (r: Option<bool>)
    ensures r.None? <==> None in Ids(ms)
    ensures r.Some? ==> (r.value <==> name in Ids(ms))
  {
    if ms == [] then Some(false)
    else
      assert Ids(ms) == {ms[0].id} + Ids(ms[1..]) by {
        forall x | x in Ids(ms) ensures x in {ms[0].id} + Ids(ms[1..]) {
          var k :| 0 <= k < |ms| && ms[k].id == x;
          if k > 0 { assert ms[1..][k - 1] == ms[k]; }
        }
        forall x | x in Ids(ms[1..]) ensures x in Ids(ms) {
          var k :| 0 <= k < |ms[1..]| && ms[1..][k].id == x;
          assert ms[k + 1] == ms[1..][k];
        }
      }
      if ms[0].id.None? then None
      else match AlreadyStoredType(ms[1..], name)
        case None => None
        case Some(found) => Some(found || ms[0].id == name)
  }

  // ---------------------------------------------------------------------------
  // Members of a class: `findReferencedTypes`

  function Keys(s: seq<Entry>): set<string> {
    set i | 0 <= i < |s| :: s[i].name
  }

  predicate DistinctKeys(s: seq<Entry>) {
    forall i, j | 0 <= i < j < |s| :: s[i].name != s[j].name
  }

  predicate ValidEntries(u: Universe, s: seq<Entry>) {
    forall i | 0 <= i < |s| :: ValidType(u, s[i].holder.holderType)
  }

  /** The text of the first `@return` tag, or the empty string. */
  function ReturnText(m: MethodDoc): string {
    if |m.returnTags| > 0 then m.returnTags[0] else ""
  }

  /** The entry a field contributes: it is not static and its translated name is not null. */
  predicate FieldYields(tr: Translator, f: FieldDoc, e: Entry) {
    && !f.isStatic
    && tr.fieldName(f) == Some(e.name)
    && e.holder == TypeHolder(f.fieldType, f.rawCommentText)
  }

  /** The entry a method contributes, described by its first `@return` tag. */
  predicate MethodYields(tr: Translator, m: MethodDoc, e: Entry) {
    && !m.isStatic
    && tr.methodName(m) == Some(e.name)
    && e.holder == TypeHolder(m.returnType, ReturnText(m))
  }

  /** The candidate entries of a list of fields, in order. */
  function FieldEntries(tr: Translator, fields: seq<FieldDoc>): seq<Entry> {
    if fields == [] then []
    else
      var prev := FieldEntries(tr, fields[..|fields| - 1]);
      var f := fields[|fields| - 1];
      if !f.isStatic && tr.fieldName(f).Some? then
        prev + [Entry(tr.fieldName(f).value, TypeHolder(f.fieldType, f.rawCommentText))]
      else
        prev
  }

  /** The candidate entries of a list of methods, in order. */
  function MethodEntries(tr: Translator, methods: seq<MethodDoc>): seq<Entry> {
    if methods == [] then []
    else
      var prev := MethodEntries(tr, methods[..|methods| - 1]);
      var m := methods[|methods| - 1];
      if !m.isStatic && tr.methodName(m).Some? then
        prev + [Entry(tr.methodName(m).value, TypeHolder(m.returnType, ReturnText(m)))]
      else
        prev
  }

  /**
   * Each field entry comes from a non-static field with a non-null translated name,
   * and every such field contributes its entry.
   */
  lemma {:induction false} FieldEntriesYield(tr: Translator, fields: seq<FieldDoc>)
    ensures forall i | 0 <= i < |FieldEntries(tr, fields)| ::
      exists j | 0 <= j < |fields| :: FieldYields(tr, fields[j], FieldEntries(tr, fields)[i])
    ensures forall j | 0 <= j < |fields| && !fields[j].isStatic && tr.fieldName(fields[j]).Some? ::
      Entry(tr.fieldName(fields[j]).value, TypeHolder(fields[j].fieldType, fields[j].rawCommentText))
        in FieldEntries(tr, fields)
  {
    if fields == [] {
      assert FieldEntries(tr, fields) == [];
    } else {
      var init := fields[..|fields| - 1];
      var prev := FieldEntries(tr, init);
      var f := fields[|fields| - 1];
      var r := FieldEntries(tr, fields);
      FieldEntriesYield(tr, init);
      assert forall j | 0 <= j < |init| :: init[j] == fields[j];
      assert prev <= r;
      forall i | 0 <= i < |r| ensures exists j | 0 <= j < |fields| :: FieldYields(tr, fields[j], r[i]) {
        if i < |prev| {
          var j :| 0 <= j < |init| && FieldYields(tr, init[j], prev[i]);
          assert FieldYields(tr, fields[j], r[i]);
        } else {
          assert FieldYields(tr, fields[|fields| - 1], r[i]);
        }
      }
      forall j | 0 <= j < |fields| && !fields[j].isStatic && tr.fieldName(fields[j]).Some?
        ensures Entry(tr.fieldName(fields[j]).value, TypeHolder(fields[j].fieldType, fields[j].rawCommentText)) in r
      {
        if j < |init| {
          assert init[j] == fields[j];
        } else {
          assert r[|prev|] == Entry(tr.fieldName(f).value, TypeHolder(f.fieldType, f.rawCommentText));
        }
      }
    }
  }

  /** The counterpart of `FieldEntriesYield` for methods. */
  lemma {:induction false} MethodEntriesYield(tr: Translator, methods: seq<MethodDoc>)
    ensures forall i | 0 <= i < |MethodEntries(tr, methods)| ::
      exists j | 0 <= j < |methods| :: MethodYields(tr, methods[j], MethodEntries(tr, methods)[i])
    ensures forall j | 0 <= j < |methods| && !methods[j].isStatic && tr.methodName(methods[j]).Some? ::
      Entry(tr.methodName(methods[j]).value, TypeHolder(methods[j].returnType, ReturnText(methods[j])))
        in MethodEntries(tr, methods)
  {
    if methods == [] {
      assert MethodEntries(tr, methods) == [];
    } else {
      var init := methods[..|methods| - 1];
      var prev := MethodEntries(tr, init);
      var m := methods[|methods| - 1];
      var r := MethodEntries(tr, methods);
      MethodEntriesYield(tr, init);
      assert forall j | 0 <= j < |init| :: init[j] == methods[j];
      assert prev <= r;
      forall i | 0 <= i < |r| ensures exists j | 0 <= j < |methods| :: MethodYields(tr, methods[j], r[i]) {
        if i < |prev| {
          var j :| 0 <= j < |init| && MethodYields(tr, init[j], prev[i]);
          assert MethodYields(tr, methods[j], r[i]);
        } else {
          assert MethodYields(tr, methods[|methods| - 1], r[i]);
        }
      }
      forall j | 0 <= j < |methods| && !methods[j].isStatic && tr.methodName(methods[j]).Some?
        ensures Entry(tr.methodName(methods[j]).value, TypeHolder(methods[j].returnType, ReturnText(methods[j]))) in r
      {
        if j < |init| {
          assert init[j] == methods[j];
        } else {
          assert r[|prev|] == Entry(tr.methodName(m).value, TypeHolder(m.returnType, ReturnText(m)));
        }
      }
    }
  }

  /** The position of the first entry with the given name. */
  function IndexOf(s: seq<Entry>, name: string): (i: nat)
    requires name in Keys(s)
    ensures i < |s| && s[i].name == name
    ensures forall j | 0 <= j < i :: s[j].name != name
  {
    if s[0].name == name then 0
    else
      assert name in Keys(s[1..]) by {
        var k :| 0 <= k < |s| && s[k].name == name;
        assert s[1..][k - 1] == s[k];
      }
      var i := 1 + IndexOf(s[1..], name);
      assert forall j | 1 <= j < i :: s[j] == s[1..][j - 1];
      i
  }

  lemma KeysSnoc(s: seq<Entry>, e: Entry)
    ensures Keys(s + [e]) == Keys(s) + {e.name}
  {
    var t := s + [e];
    assert forall i | 0 <= i < |s| :: t[i] == s[i];
    assert t[|s|] == e;
  }

  /** Appending entries does not move the first occurrence of a name already present. */
  lemma IndexOfConcat(a: seq<Entry>, b: seq<Entry>, name: string)
    requires name in Keys(a)
    ensures name in Keys(a + b) && IndexOf(a + b, name) == IndexOf(a, name)
  {
    var k := IndexOf(a, name);
    var t := a + b;
    assert forall j | 0 <= j <= k :: t[j] == a[j];
    assert t[k].name in Keys(t);
  }

  /** A name seen for the first time is found at the end. */
  lemma IndexOfSnocNew(s: seq<Entry>, e: Entry)
    requires e.name !in Keys(s)
    ensures e.name in Keys(s + [e]) && IndexOf(s + [e], e.name) == |s|
  {
    KeysSnoc(s, e);
  }

  /**
   * A `LinkedHashMap` filled with `put` only when the key is absent: an entry is
   * appended unless its name is already a key.
   */
  function Dedup(s: seq<Entry>): seq<Entry> {
    if s == [] then []
    else
      var prev := Dedup(s[..|s| - 1]);
      if s[|s| - 1].name in Keys(prev) then prev else prev + [s[|s| - 1]]
  }

  /** The map has exactly the names of the input, each once. */
  lemma {:induction false} DedupKeys(s: seq<Entry>)
    ensures Keys(Dedup(s)) == Keys(s) && DistinctKeys(Dedup(s))
  {
    if s != [] {
      var init := s[..|s| - 1];
      var e := s[|s| - 1];
      assert s == init + [e];
      var prev := Dedup(init);
      DedupKeys(init);
      KeysSnoc(init, e);
      if e.name !in Keys(prev) {
        var r := prev + [e];
        KeysSnoc(prev, e);
        assert forall i | 0 <= i < |prev| :: r[i] == prev[i] && prev[i].name in Keys(prev);
      }
    }
  }

  /** The entry kept for a name is the first one put: later entries never overwrite it. */
  lemma {:induction false} DedupFirstWins(s: seq<Entry>)
    ensures forall i | 0 <= i < |Dedup(s)| ::
      Dedup(s)[i].name in Keys(s) && Dedup(s)[i] == s[IndexOf(s, Dedup(s)[i].name)]
  {
    if s != [] {
      var init := s[..|s| - 1];
      var e := s[|s| - 1];
      assert s == init + [e];
      var prev := Dedup(init);
      DedupFirstWins(init);
      forall i | 0 <= i < |prev|
        ensures prev[i].name in Keys(s) && s[IndexOf(s, prev[i].name)] == prev[i]
      {
        assert prev[i].name in Keys(init);
        IndexOfConcat(init, [e], prev[i].name);
      }
      if e.name !in Keys(prev) {
        DedupKeys(init);
        IndexOfSnocNew(init, e);
        var r := prev + [e];
        assert forall i | 0 <= i < |prev| :: r[i] == prev[i];
      }
    }
  }

  /** Fields of the whole superclass chain first, then the class's own methods. */
  function Candidates(ctx: Context, c: ClassId): seq<Entry>
    requires ValidContext(ctx) && c < |ctx.u.classes|
  {
    FieldEntries(ctx.tr, ChainFields(ctx.u, c)) + MethodEntries(ctx.tr, MethodsOf(ctx.u.classes[c]))
  }

  lemma CandidatesValid(ctx: Context, c: ClassId)
    requires ValidContext(ctx) && c < |ctx.u.classes|
    ensures ValidEntries(ctx.u, Candidates(ctx, c))
  {
    var fe := FieldEntries(ctx.tr, ChainFields(ctx.u, c));
    var me := MethodEntries(ctx.tr, MethodsOf(ctx.u.classes[c]));
    FieldEntriesYield(ctx.tr, ChainFields(ctx.u, c));
    MethodEntriesYield(ctx.tr, MethodsOf(ctx.u.classes[c]));
    assert ValidClass(ctx.u, c);
    forall i | 0 <= i < |fe| + |me|
      ensures ValidType(ctx.u, Candidates(ctx, c)[i].holder.holderType)
    {
      if i < |fe| {
        assert Candidates(ctx, c)[i] == fe[i];
        var j :| 0 <= j < |ChainFields(ctx.u, c)| && FieldYields(ctx.tr, ChainFields(ctx.u, c)[j], fe[i]);
        assert ChainFields(ctx.u, c)[j] in ChainFields(ctx.u, c);
      } else {
        assert Candidates(ctx, c)[i] == me[i - |fe|];
        var ms := MethodsOf(ctx.u.classes[c]);
        var j :| 0 <= j < |ms| && MethodYields(ctx.tr, ms[j], me[i - |fe|]);
        assert ms[j] in ms;
      }
    }
  }

  /** `findReferencedTypes`: the member map of a class declaration. */
  function ReferencedTypes(ctx: Context, c: ClassId): (r: seq<Entry>)
    requires ValidContext(ctx) && c < |ctx.u.classes|
    ensures ValidEntries(ctx.u, r) && DistinctKeys(r)
  {
    var s := Candidates(ctx, c);
    CandidatesValid(ctx, c);
    var r := Dedup(s);
    DedupKeys(s);
    DedupFirstWins(s);
    assert forall i | 0 <= i < |r| :: r[i].holder.holderType == s[IndexOf(s, r[i].name)].holder.holderType;
    r
  }

  /** A non-static field of the list has this translated name. */
  predicate FieldNamed(tr: Translator, fields: seq<FieldDoc>, name: string) {
    exists j | 0 <= j < |fields| :: !fields[j].isStatic && tr.fieldName(fields[j]) == Some(name)
  }

  /** A non-static method of the list has this translated name. */
  predicate MethodNamed(tr: Translator, methods: seq<MethodDoc>, name: string) {
    exists j | 0 <= j < |methods| :: !methods[j].isStatic && tr.methodName(methods[j]) == Some(name)
  }

  lemma FieldEntriesKeys(tr: Translator, fields: seq<FieldDoc>, name: string)
    ensures name in Keys(FieldEntries(tr, fields)) <==> FieldNamed(tr, fields, name)
  {
    var r := FieldEntries(tr, fields);
    FieldEntriesYield(tr, fields);
    if name in Keys(r) {
      var i :| 0 <= i < |r| && r[i].name == name;
      var j :| 0 <= j < |fields| && FieldYields(tr, fields[j], r[i]);
    }
    if FieldNamed(tr, fields, name) {
      var j :| 0 <= j < |fields| && !fields[j].isStatic && tr.fieldName(fields[j]) == Some(name);
      var e := Entry(name, TypeHolder(fields[j].fieldType, fields[j].rawCommentText));
      var i :| 0 <= i < |r| && r[i] == e;
    }
  }

  lemma MethodEntriesKeys(tr: Translator, methods: seq<MethodDoc>, name: string)
    ensures name in Keys(MethodEntries(tr, methods)) <==> MethodNamed(tr, methods, name)
  {
    var r := MethodEntries(tr, methods);
    MethodEntriesYield(tr, methods);
    if name in Keys(r) {
      var i :| 0 <= i < |r| && r[i].name == name;
      var j :| 0 <= j < |methods| && MethodYields(tr, methods[j], r[i]);
    }
    if MethodNamed(tr, methods, name) {
      var j :| 0 <= j < |methods| && !methods[j].isStatic && tr.methodName(methods[j]) == Some(name);
      var e := Entry(name, TypeHolder(methods[j].returnType, ReturnText(methods[j])));
      var i :| 0 <= i < |r| && r[i] == e;
    }
  }

  lemma KeysConcat(a: seq<Entry>, b: seq<Entry>)
    ensures Keys(a + b) == Keys(a) + Keys(b)
  {
    var t := a + b;
    assert forall i | 0 <= i < |a| :: t[i] == a[i];
    assert forall i | 0 <= i < |b| :: t[|a| + i] == b[i];
    forall x | x in Keys(t) ensures x in Keys(a) + Keys(b) {
      var i :| 0 <= i < |t| && t[i].name == x;
      if i >= |a| { assert b[i - |a|].name == x; }
    }
  }

  /**
   * The member map has a key exactly for each translated name of a non-static field
   * of the class or its superclasses and of a non-static method of the class: static
   * members and members whose translated name is null are skipped.
   */
  lemma ReferencedKeys(ctx: Context, c: ClassId, name: string)
    requires ValidContext(ctx) && c < |ctx.u.classes|
    ensures name in Keys(ReferencedTypes(ctx, c))
      <==> FieldNamed(ctx.tr, ChainFields(ctx.u, c), name) || MethodNamed(ctx.tr, MethodsOf(ctx.u.classes[c]), name)
  {
    var fe := FieldEntries(ctx.tr, ChainFields(ctx.u, c));
    var me := MethodEntries(ctx.tr, MethodsOf(ctx.u.classes[c]));
    DedupKeys(fe + me);
    KeysConcat(fe, me);
    FieldEntriesKeys(ctx.tr, ChainFields(ctx.u, c), name);
    MethodEntriesKeys(ctx.tr, MethodsOf(ctx.u.classes[c]), name);
  }

  /** The entry kept for a name that occurs in a prefix of the candidates comes from that prefix. */
  lemma PrefixWins(a: seq<Entry>, b: seq<Entry>, name: string, i: nat)
    requires name in Keys(a)
    requires i < |Dedup(a + b)| && Dedup(a + b)[i].name == name
    ensures Dedup(a + b)[i] == a[IndexOf(a, name)]
  {
    DedupFirstWins(a + b);
    IndexOfConcat(a, b, name);
  }

  lemma {:induction false} FieldEntriesConcat(tr: Translator, a: seq<FieldDoc>, b: seq<FieldDoc>)
    ensures FieldEntries(tr, a + b) == FieldEntries(tr, a) + FieldEntries(tr, b)
    decreases |b|
  {
    if b != [] {
      var b0 := b[..|b| - 1];
      assert (a + b)[..|a + b| - 1] == a + b0;
      assert b[..|b| - 1] == b0;
      FieldEntriesConcat(tr, a, b0);
    } else {
      assert a + b == a;
    }
  }

  /**
   * A field beats a method of the same translated name: when some non-static field of
   * the chain is named `name`, the entry kept for `name` is one a field contributes.
   */
  lemma FieldBeatsMethod(ctx: Context, c: ClassId, name: string, i: nat)
    requires ValidContext(ctx) && c < |ctx.u.classes|
    requires FieldNamed(ctx.tr, ChainFields(ctx.u, c), name)
    requires i < |ReferencedTypes(ctx, c)| && ReferencedTypes(ctx, c)[i].name == name
    ensures exists j | 0 <= j < |ChainFields(ctx.u, c)| ::
      FieldYields(ctx.tr, ChainFields(ctx.u, c)[j], ReferencedTypes(ctx, c)[i])
  {
    var fields := ChainFields(ctx.u, c);
    var fe := FieldEntries(ctx.tr, fields);
    FieldEntriesKeys(ctx.tr, fields, name);
    FieldEntriesYield(ctx.tr, fields);
    PrefixWins(fe, MethodEntries(ctx.tr, MethodsOf(ctx.u.classes[c])), name, i);
    var k := IndexOf(fe, name);
    assert exists j | 0 <= j < |fields| :: FieldYields(ctx.tr, fields[j], fe[k]);
  }

  /**
   * A subclass field beats a same-named field of a superclass: when some non-static
   * field declared by the class itself is named `name`, the entry kept for `name` is
   * one of the class's own fields contributes.
   */
  lemma OwnFieldWins(ctx: Context, c: ClassId, name: string, i: nat)
    requires ValidContext(ctx) && c < |ctx.u.classes|
    requires FieldNamed(ctx.tr, ctx.u.classes[c].fields, name)
    requires i < |ReferencedTypes(ctx, c)| && ReferencedTypes(ctx, c)[i].name == name
    ensures exists j | 0 <= j < |ctx.u.classes[c].fields| ::
      FieldYields(ctx.tr, ctx.u.classes[c].fields[j], ReferencedTypes(ctx, c)[i])
  {
    var own := ctx.u.classes[c].fields;
    var chain := ChainFields(ctx.u, c);
    var rest := chain[|own|..];
    assert chain == own + rest;
    FieldEntriesConcat(ctx.tr, own, rest);
    var oe := FieldEntries(ctx.tr, own);
    var tail := FieldEntries(ctx.tr, rest) + MethodEntries(ctx.tr, MethodsOf(ctx.u.classes[c]));
    ConcatAssociative(oe, FieldEntries(ctx.tr, rest), MethodEntries(ctx.tr, MethodsOf(ctx.u.classes[c])));
    assert Candidates(ctx, c) == oe + tail;
    FieldEntriesKeys(ctx.tr, own, name);
    FieldEntriesYield(ctx.tr, own);
    PrefixWins(oe, tail, name, i);
    var k := IndexOf(oe, name);
    assert exists j | 0 <= j < |own| :: FieldYields(ctx.tr, own[j], oe[k]);
  }

  // ---------------------------------------------------------------------------
  // Properties of the members: `findReferencedElements`

  /**
   * The property of one member: a member whose type is an enum lists the enum
   * constants; any other member names its type and the first type argument, if any.
   */
  function Classify(ctx: Context, h: TypeHolder): Property
    requires ValidContext(ctx) && ValidType(ctx.u, h.holderType)
  {
    var info := ctx.u.types[h.holderType];
    assert ValidTypeInfo(ctx.u, info);
    if info.classDoc.Some? && ctx.u.classes[info.classDoc.value].isEnum then
      EnumProperty(ctx.u.classes[info.classDoc.value].enumConstants, h.description)
    else
      var containerTypeOf :=
        match TypeArgument(ctx.u, h.holderType)
        case None => None
        case Some(arg) => ctx.tr.typeName(arg);
      TypedProperty(ctx.tr.typeName(h.holderType), h.description, containerTypeOf)
  }

  /**
   * The two kinds of property: the enum property exactly for a member whose type is
   * declared as an enum, and the typed property otherwise; both keep the description.
   */
  lemma ClassifyCases(ctx: Context, h: TypeHolder)
    requires ValidContext(ctx) && ValidType(ctx.u, h.holderType)
    ensures var r := Classify(ctx, h);
      var cd := ctx.u.types[h.holderType].classDoc;
      var arg := TypeArgument(ctx.u, h.holderType);
      && r.description == h.description
      && (r.EnumProperty? <==> cd.Some? && cd.value < |ctx.u.classes| && ctx.u.classes[cd.value].isEnum)
      && (r.EnumProperty? ==> r.allowableValues == ctx.u.classes[cd.value].enumConstants)
      && (r.TypedProperty? ==> r.typeName == ctx.tr.typeName(h.holderType))
      && (r.TypedProperty? && arg.None? ==> r.containerOf.None?)
      && (r.TypedProperty? && arg.Some? ==> r.containerOf == ctx.tr.typeName(arg.value))
  {
    assert ValidTypeInfo(ctx.u, ctx.u.types[h.holderType]);
  }

  /**
   * The element map of a member map: the same keys, and for each key the property
   * of the member stored under it.
   */
  function ElementsOf(ctx: Context, s: seq<Entry>): (r: map<string, Property>)
    requires ValidContext(ctx) && ValidEntries(ctx.u, s)
    ensures r.Keys == Keys(s)
    ensures DistinctKeys(s) ==> forall i | 0 <= i < |s| :: r[s[i].name] == Classify(ctx, s[i].holder)
  {
    if s == [] then map[]
    else
      var init := s[..|s| - 1];
      var e := s[|s| - 1];
      assert s == init + [e];
      assert forall i | 0 <= i < |init| :: init[i] == s[i];
      KeysSnoc(init, e);
      ElementsOf(ctx, init)[e.name := Classify(ctx, e.holder)]
  }

  /** The members of a type: none without a class declaration. */
  function Members(ctx: Context, t: TypeId): (r: seq<Entry>)
    requires ValidContext(ctx) && ValidType(ctx.u, t)
    ensures ValidEntries(ctx.u, r) && DistinctKeys(r)
  {
    var info := ctx.u.types[t];
    assert ValidTypeInfo(ctx.u, info);
    if info.classDoc.Some? then ReferencedTypes(ctx, info.classDoc.value) else []
  }

  function TypeElements(ctx: Context, t: TypeId): map<string, Property>
    requires ValidContext(ctx) && ValidType(ctx.u, t)
  {
    ElementsOf(ctx, Members(ctx, t))
  }

  /** The model `parseModel` stores for a type. */
  function ModelOf(ctx: Context, t: TypeId): (m: Model)
    requires ValidContext(ctx) && ValidType(ctx.u, t)
    ensures m.id == ctx.tr.typeName(t)
    ensures m.properties.Keys == Keys(Members(ctx, t))
  {
    Model(ctx.tr.typeName(t), TypeElements(ctx, t))
  }

  // ---------------------------------------------------------------------------
  // The walk

  predicate AllValid(u: Universe, v: seq<TypeId>) {
    forall k | 0 <= k < |v| :: ValidType(u, v[k])
  }

  /** The stored models, one per type that produced a model, in insertion order. */
  function ModelsOf(ctx: Context, v: seq<TypeId>): (r: seq<Model>)
    requires ValidContext(ctx) && AllValid(ctx.u, v)
  {
    seq(|v|, k requires 0 <= k < |v| => ModelOf(ctx, v[k]))
  }

  function Names(ctx: Context, v: seq<TypeId>): set<Option<string>> {
    set k | 0 <= k < |v| :: ctx.tr.typeName(v[k])
  }

  /** Every name the translator gives to some type of the universe. */
  function AllNames(ctx: Context): set<Option<string>> {
    set t: nat | t < |ctx.u.types| :: ctx.tr.typeName(t)
  }

  /** The termination measure: names that could still become model ids. */
  function Remaining(ctx: Context, v: seq<TypeId>): nat {
    |AllNames(ctx) - Names(ctx, v)|
  }

  lemma IdsOfModels(ctx: Context, v: seq<TypeId>)
    requires ValidContext(ctx) && AllValid(ctx.u, v)
    ensures Ids(ModelsOf(ctx, v)) == Names(ctx, v)
  {
    var ms := ModelsOf(ctx, v);
    assert forall k | 0 <= k < |v| :: ms[k].id == ctx.tr.typeName(v[k]);
  }

  lemma NamesSnoc(ctx: Context, v: seq<TypeId>, t: TypeId)
    ensures Names(ctx, v + [t]) == Names(ctx, v) + {ctx.tr.typeName(t)}
  {
    var w := v + [t];
    assert forall k | 0 <= k < |v| :: w[k] == v[k];
    assert w[|v|] == t;
  }

  lemma NamesGrow(ctx: Context, a: seq<TypeId>, b: seq<TypeId>)
    requires a <= b
    ensures Names(ctx, a) <= Names(ctx, b)
  {
    assert forall k | 0 <= k < |a| :: a[k] == b[k];
  }

  lemma RemainingShrinks(ctx: Context, v: seq<TypeId>, t: TypeId)
    requires ValidType(ctx.u, t) && ctx.tr.typeName(t) !in Names(ctx, v)
    ensures Remaining(ctx, v + [t]) < Remaining(ctx, v)
  {
    NamesSnoc(ctx, v, t);
    var n := ctx.tr.typeName(t);
    var d := AllNames(ctx) - Names(ctx, v);
    assert n in AllNames(ctx);
    assert AllNames(ctx) - Names(ctx, v + [t]) == d - {n};
    assert n in d;
  }

  /** A type that produces a model: it is opened and has at least one element. */
  predicate Produces(ctx: Context, t: TypeId)
    requires ValidContext(ctx)
  {
    ValidType(ctx.u, t) && !IsTerminal(ctx, t) && Members(ctx, t) != []
  }

  /** No two stored types share a translated name, so no two models share an id. */
  predicate DistinctNames(ctx: Context, v: seq<TypeId>) {
    forall i, j | 0 <= i < j < |v| :: ctx.tr.typeName(v[i]) != ctx.tr.typeName(v[j])
  }

  /**
   * How the walk may change the stored types: it only appends, and the termination
   * measure does not grow.
   */
  predicate Grows(ctx: Context, v: seq<TypeId>, w: seq<TypeId>)
    requires ValidContext(ctx)
  {
    && v <= w
    && AllValid(ctx.u, w)
    && Remaining(ctx, w) <= Remaining(ctx, v)
  }

  lemma GrowsTrans(ctx: Context, a: seq<TypeId>, b: seq<TypeId>, c: seq<TypeId>)
    requires ValidContext(ctx) && Grows(ctx, a, b) && Grows(ctx, b, c)
    ensures Grows(ctx, a, c)
  {
  }

  /** The element map is empty exactly when the member map is. */
  lemma ElementsEmpty(ctx: Context, t: TypeId)
    requires ValidContext(ctx) && ValidType(ctx.u, t)
    ensures |TypeElements(ctx, t)| == 0 <==> Members(ctx, t) == []
  {
    var ms := Members(ctx, t);
    if ms != [] {
      assert ms[0].name in Keys(ms);
      assert ms[0].name in TypeElements(ctx, t).Keys;
    }
  }

  lemma GrowsByOne(ctx: Context, v: seq<TypeId>, t: TypeId)
    requires ValidContext(ctx) && AllValid(ctx.u, v) && ValidType(ctx.u, t)
    requires ctx.tr.typeName(t) !in Names(ctx, v)
    ensures Grows(ctx, v, v + [t]) && Remaining(ctx, v + [t]) < Remaining(ctx, v)
  {
    RemainingShrinks(ctx, v, t);
    var w := v + [t];
    forall k | 0 <= k < |w| ensures ValidType(ctx.u, w[k]) {
      if k < |v| { assert w[k] == v[k]; }
    }
  }

  /**
   * `parseModel(t)` on the stored types `visited`: the stored types afterwards, or
   * `None` where the Java code throws. A terminal type is skipped; otherwise
   * `alreadyStoredType` throws when a stored model has a null id, and a type whose
   * name is stored is skipped; otherwise the type is stored when it has elements, and
   * then its members are visited.
   */
  function Walk(ctx: Context, visited: seq<TypeId>, t: TypeId): (r: Option<seq<TypeId>>)
    requires ValidContext(ctx) && AllValid(ctx.u, visited) && ValidType(ctx.u, t)
    ensures r.Some? ==> Grows(ctx, visited, r.value)
    decreases Remaining(ctx, visited), 1, 0
  {
    if IsTerminal(ctx, t) then Some(visited)
    else if None in Names(ctx, visited) then None
    else if ctx.tr.typeName(t) in Names(ctx, visited) || Members(ctx, t) == [] then Some(visited)
    else
      GrowsByOne(ctx, visited, t);
      WalkAll(ctx, visited + [t], Members(ctx, t), Remaining(ctx, visited))
  }

  /**
   * One turn of the loop in `parseNestedModels`: the member type, then its first type
   * argument if it has one, stopping at the first exception.
   */
  function WalkHolder(ctx: Context, visited: seq<TypeId>, h: TypeId): (r: Option<seq<TypeId>>)
    requires ValidContext(ctx) && AllValid(ctx.u, visited) && ValidType(ctx.u, h)
    ensures r.Some? ==> Grows(ctx, visited, r.value)
    decreases Remaining(ctx, visited), 2, 0
  {
    match Walk(ctx, visited, h)
    case None => None
    case Some(v1) =>
      var arg := TypeArgument(ctx.u, h);
      if arg.None? then Some(v1)
      else
        var r := Walk(ctx, v1, arg.value);
        if r.Some? then GrowsTrans(ctx, visited, v1, r.value); r else r
  }

  /**
   * `parseNestedModels`: each member in turn, stopping at the first exception. `budget`
   * bounds the measure from above.
   */
  function WalkAll(ctx: Context, visited: seq<TypeId>, holders: seq<Entry>, budget: nat): (r: Option<seq<TypeId>>)
    requires ValidContext(ctx) && AllValid(ctx.u, visited) && ValidEntries(ctx.u, holders)
    requires Remaining(ctx, visited) < budget
    ensures r.Some? ==> Grows(ctx, visited, r.value)
    decreases budget, 0, |holders|
  {
    if holders == [] then Some(visited)
    else
      assert ValidEntries(ctx.u, holders[1..]) by {
        assert forall i | 0 <= i < |holders| - 1 :: holders[1..][i] == holders[i + 1];
      }
      match WalkHolder(ctx, visited, holders[0].holder.holderType)
      case None => None
      case Some(v1) =>
        var r := WalkAll(ctx, v1, holders[1..], budget);
        if r.Some? then GrowsTrans(ctx, visited, v1, r.value); r else r
  }

  /**
   * What the walk appends: only types that produce a model, and never a type whose
   * translated name is already stored.
   */
  predicate Sound(ctx: Context, v: seq<TypeId>, w: seq<TypeId>)
    requires ValidContext(ctx) && Grows(ctx, v, w)
  {
    && (forall k | |v| <= k < |w| :: Produces(ctx, w[k]))
    && (DistinctNames(ctx, v) ==> DistinctNames(ctx, w))
  }

  lemma SoundTrans(ctx: Context, a: seq<TypeId>, b: seq<TypeId>, c: seq<TypeId>)
    requires ValidContext(ctx) && Grows(ctx, a, b) && Grows(ctx, b, c)
    requires Sound(ctx, a, b) && Sound(ctx, b, c)
    ensures Grows(ctx, a, c) && Sound(ctx, a, c)
  {
    assert forall k | |a| <= k < |b| :: c[k] == b[k];
  }

  lemma SoundByOne(ctx: Context, v: seq<TypeId>, t: TypeId)
    requires ValidContext(ctx) && AllValid(ctx.u, v) && Produces(ctx, t)
    requires ctx.tr.typeName(t) !in Names(ctx, v)
    ensures Grows(ctx, v, v + [t]) && Sound(ctx, v, v + [t])
  {
    GrowsByOne(ctx, v, t);
    assert forall k | |v| <= k < |v + [t]| :: (v + [t])[k] == t;
    if DistinctNames(ctx, v) {
      DistinctSnoc(ctx, v, t);
    }
  }

  lemma DistinctSnoc(ctx: Context, v: seq<TypeId>, t: TypeId)
    requires DistinctNames(ctx, v) && ctx.tr.typeName(t) !in Names(ctx, v)
    ensures DistinctNames(ctx, v + [t])
  {
    var w := v + [t];
    forall i, j | 0 <= i < j < |w| ensures ctx.tr.typeName(w[i]) != ctx.tr.typeName(w[j]) {
      assert w[i] == v[i];
      if j == |v| {
        assert ctx.tr.typeName(v[i]) in Names(ctx, v);
      } else {
        assert w[j] == v[j];
      }
    }
  }

  /**
   * Every model `parseModel` adds comes from a type that is opened and has elements,
   * and model ids stay pairwise distinct.
   */
  lemma {:induction false} WalkSound(ctx: Context, visited: seq<TypeId>, t: TypeId)
    requires ValidContext(ctx) && AllValid(ctx.u, visited) && ValidType(ctx.u, t)
    requires Walk(ctx, visited, t).Some?
    ensures Sound(ctx, visited, Walk(ctx, visited, t).value)
    decreases Remaining(ctx, visited), 1, 0
  {
    var r := Walk(ctx, visited, t).value;
    if !IsTerminal(ctx, t) && ctx.tr.typeName(t) !in Names(ctx, visited) && Members(ctx, t) != [] {
      var v1 := visited + [t];
      WalkOpens(ctx, visited, t);
      SoundByOne(ctx, visited, t);
      WalkAllSound(ctx, v1, Members(ctx, t), Remaining(ctx, visited));
      SoundTrans(ctx, visited, v1, r);
    }
  }

  lemma {:induction false} WalkHolderSound(ctx: Context, visited: seq<TypeId>, h: TypeId)
    requires ValidContext(ctx) && AllValid(ctx.u, visited) && ValidType(ctx.u, h)
    requires WalkHolder(ctx, visited, h).Some?
    ensures Sound(ctx, visited, WalkHolder(ctx, visited, h).value)
    decreases Remaining(ctx, visited), 2, 0
  {
    var v1 := Walk(ctx, visited, h).value;
    WalkSound(ctx, visited, h);
    var arg := TypeArgument(ctx.u, h);
    if arg.Some? {
      WalkSound(ctx, v1, arg.value);
      SoundTrans(ctx, visited, v1, Walk(ctx, v1, arg.value).value);
    }
  }

  lemma {:induction false} WalkAllSound(ctx: Context, visited: seq<TypeId>, holders: seq<Entry>, budget: nat)
    requires ValidContext(ctx) && AllValid(ctx.u, visited) && ValidEntries(ctx.u, holders)
    requires Remaining(ctx, visited) < budget
    requires WalkAll(ctx, visited, holders, budget).Some?
    ensures Sound(ctx, visited, WalkAll(ctx, visited, holders, budget).value)
    decreases budget, 0, |holders|
  {
    if holders != [] {
      var r := WalkAll(ctx, visited, holders, budget).value;
      var tail := holders[1..];
      WalkAllCons(ctx, visited, holders, budget);
      var v1 := WalkHolder(ctx, visited, holders[0].holder.holderType).value;
      WalkHolderSound(ctx, visited, holders[0].holder.holderType);
      WalkAllSound(ctx, v1, tail, budget);
      SoundTrans(ctx, visited, v1, r);
    }
  }

  // ---------------------------------------------------------------------------
  // What the walk guarantees

  /**
   * A type needs no further visit: it is terminal, it has no elements, or a model
   * with its translated name is stored.
   */
  predicate Handled(ctx: Context, v: seq<TypeId>, x: TypeId)
    requires ValidContext(ctx) && ValidType(ctx.u, x)
  {
    IsTerminal(ctx, x) || Members(ctx, x) == [] || ctx.tr.typeName(x) in Names(ctx, v)
  }

  /** A member type and its first type argument are both handled. */
  predicate MemberHandled(ctx: Context, v: seq<TypeId>, x: TypeId)
    requires ValidContext(ctx) && ValidType(ctx.u, x)
  {
    && Handled(ctx, v, x)
    && (TypeArgument(ctx.u, x).Some? ==> Handled(ctx, v, TypeArgument(ctx.u, x).value))
  }

  predicate AllMembersHandled(ctx: Context, v: seq<TypeId>, holders: seq<Entry>)
    requires ValidContext(ctx) && ValidEntries(ctx.u, holders)
  {
    forall i | 0 <= i < |holders| :: MemberHandled(ctx, v, holders[i].holder.holderType)
  }

  /** Every stored type from position `from` on has all its members handled. */
  predicate ClosedFrom(ctx: Context, v: seq<TypeId>, from: nat)
    requires ValidContext(ctx) && AllValid(ctx.u, v)
  {
    forall k | from <= k < |v| :: AllMembersHandled(ctx, v, Members(ctx, v[k]))
  }

  lemma HandledGrows(ctx: Context, a: seq<TypeId>, b: seq<TypeId>, holders: seq<Entry>)
    requires ValidContext(ctx) && ValidEntries(ctx.u, holders) && a <= b
    requires AllMembersHandled(ctx, a, holders)
    ensures AllMembersHandled(ctx, b, holders)
  {
    NamesGrow(ctx, a, b);
  }

  lemma ClosedGrows(ctx: Context, a: seq<TypeId>, b: seq<TypeId>, from: nat)
    requires ValidContext(ctx) && AllValid(ctx.u, a) && Grows(ctx, a, b)
    requires ClosedFrom(ctx, a, from)
    ensures forall k | from <= k < |a| :: AllMembersHandled(ctx, b, Members(ctx, b[k]))
  {
    forall k | from <= k < |a| ensures AllMembersHandled(ctx, b, Members(ctx, b[k])) {
      assert b[k] == a[k];
      HandledGrows(ctx, a, b, Members(ctx, a[k]));
    }
  }

  /**
   * After `parseModel(t)` returns normally, `t` is handled and every type it stored has
   * all its member types and their first type arguments handled.
   */
  lemma {:induction false} WalkClosed(ctx: Context, visited: seq<TypeId>, t: TypeId)
    requires ValidContext(ctx) && AllValid(ctx.u, visited) && ValidType(ctx.u, t)
    requires Walk(ctx, visited, t).Some?
    ensures Handled(ctx, Walk(ctx, visited, t).value, t)
    ensures ClosedFrom(ctx, Walk(ctx, visited, t).value, |visited|)
    decreases Remaining(ctx, visited), 1, 0
  {
    var r := Walk(ctx, visited, t).value;
    if !IsTerminal(ctx, t) && ctx.tr.typeName(t) !in Names(ctx, visited) && Members(ctx, t) != [] {
      var v1 := visited + [t];
      WalkOpens(ctx, visited, t);
      WalkAllClosed(ctx, v1, Members(ctx, t), Remaining(ctx, visited));
      forall k | |visited| <= k < |r|
        ensures AllMembersHandled(ctx, r, Members(ctx, r[k]))
      {
        if k == |visited| {
          assert r[k] == v1[k] == t;
        }
      }
      NamesSnoc(ctx, visited, t);
      NamesGrow(ctx, v1, r);
    }
  }

  /** After one turn of `parseNestedModels`, the member and its first type argument are handled. */
  lemma {:induction false} WalkHolderClosed(ctx: Context, visited: seq<TypeId>, h: TypeId)
    requires ValidContext(ctx) && AllValid(ctx.u, visited) && ValidType(ctx.u, h)
    requires WalkHolder(ctx, visited, h).Some?
    ensures MemberHandled(ctx, WalkHolder(ctx, visited, h).value, h)
    ensures ClosedFrom(ctx, WalkHolder(ctx, visited, h).value, |visited|)
    decreases Remaining(ctx, visited), 2, 0
  {
    var v1 := Walk(ctx, visited, h).value;
    WalkClosed(ctx, visited, h);
    var arg := TypeArgument(ctx.u, h);
    if arg.Some? {
      var v2 := Walk(ctx, v1, arg.value).value;
      WalkClosed(ctx, v1, arg.value);
      ClosedGrows(ctx, v1, v2, |visited|);
      NamesGrow(ctx, v1, v2);
    }
  }

  /** After `parseNestedModels` returns normally, every member given to it is handled. */
  lemma {:induction false} WalkAllClosed(ctx: Context, visited: seq<TypeId>, holders: seq<Entry>, budget: nat)
    requires ValidContext(ctx) && AllValid(ctx.u, visited) && ValidEntries(ctx.u, holders)
    requires Remaining(ctx, visited) < budget
    requires WalkAll(ctx, visited, holders, budget).Some?
    ensures AllMembersHandled(ctx, WalkAll(ctx, visited, holders, budget).value, holders)
    ensures ClosedFrom(ctx, WalkAll(ctx, visited, holders, budget).value, |visited|)
    decreases budget, 0, |holders|
  {
    if holders != [] {
      var r := WalkAll(ctx, visited, holders, budget).value;
      var h := holders[0].holder.holderType;
      var tail := holders[1..];
      WalkAllCons(ctx, visited, holders, budget);
      var v1 := WalkHolder(ctx, visited, h).value;
      WalkHolderClosed(ctx, visited, h);
      WalkAllClosed(ctx, v1, tail, budget);
      ClosedGrows(ctx, v1, r, |visited|);
      NamesGrow(ctx, v1, r);
      forall i | 0 <= i < |holders|
        ensures MemberHandled(ctx, r, holders[i].holder.holderType)
      {
        if i > 0 { assert holders[i] == tail[i - 1]; }
      }
    }
  }

  /** The translator names every type of the universe. */
  predicate NamesNonNull(ctx: Context) {
    forall t | 0 <= t < |ctx.u.types| :: ctx.tr.typeName(t).Some?
  }

  lemma NamesWithin(ctx: Context, v: seq<TypeId>)
    requires AllValid(ctx.u, v)
    ensures Names(ctx, v) <= AllNames(ctx)
  {
    forall n | n in Names(ctx, v) ensures n in AllNames(ctx) {
      var k :| 0 <= k < |v| && n == ctx.tr.typeName(v[k]);
      assert ValidType(ctx.u, v[k]);
    }
  }

  /** Without a null type name no model gets a null id, and the walk never throws. */
  lemma {:induction false} WalkSucceeds(ctx: Context, visited: seq<TypeId>, t: TypeId)
    requires ValidContext(ctx) && AllValid(ctx.u, visited) && ValidType(ctx.u, t)
    requires None !in AllNames(ctx)
    ensures Walk(ctx, visited, t).Some?
    decreases Remaining(ctx, visited), 1, 0
  {
    if !IsTerminal(ctx, t) {
      NamesWithin(ctx, visited);
      if ctx.tr.typeName(t) !in Names(ctx, visited) && Members(ctx, t) != [] {
        GrowsByOne(ctx, visited, t);
        WalkAllSucceeds(ctx, visited + [t], Members(ctx, t), Remaining(ctx, visited));
      }
    }
  }

  lemma {:induction false} WalkHolderSucceeds(ctx: Context, visited: seq<TypeId>, h: TypeId)
    requires ValidContext(ctx) && AllValid(ctx.u, visited) && ValidType(ctx.u, h)
    requires None !in AllNames(ctx)
    ensures WalkHolder(ctx, visited, h).Some?
    decreases Remaining(ctx, visited), 2, 0
  {
    WalkSucceeds(ctx, visited, h);
    var arg := TypeArgument(ctx.u, h);
    if arg.Some? {
      WalkSucceeds(ctx, Walk(ctx, visited, h).value, arg.value);
    }
  }

  lemma {:induction false} WalkAllSucceeds(ctx: Context, visited: seq<TypeId>, holders: seq<Entry>, budget: nat)
    requires ValidContext(ctx) && AllValid(ctx.u, visited) && ValidEntries(ctx.u, holders)
    requires Remaining(ctx, visited) < budget
    requires None !in AllNames(ctx)
    ensures WalkAll(ctx, visited, holders, budget).Some?
    decreases budget, 0, |holders|
  {
    if holders != [] {
      var tail := holders[1..];
      WalkAllCons(ctx, visited, holders, budget);
      WalkHolderSucceeds(ctx, visited, holders[0].holder.holderType);
      WalkAllSucceeds(ctx, WalkHolder(ctx, visited, holders[0].holder.holderType).value, tail, budget);
    }
  }

  /** `parse` returns normally whenever the translator names every type. */
  lemma ParseSucceeds(ctx: Context, root: TypeId)
    requires ValidContext(ctx) && ValidType(ctx.u, root)
    requires NamesNonNull(ctx)
    ensures Walk(ctx, [], root).Some?
  {
    assert None !in AllNames(ctx);
    WalkSucceeds(ctx, [], root);
  }

  /** No two models share an id. */
  predicate DistinctIds(ms: seq<Model>) {
    forall i, j | 0 <= i < j < |ms| :: ms[i].id != ms[j].id
  }

  /** Distinct translated names give models with distinct ids. */
  lemma DistinctModels(ctx: Context, v: seq<TypeId>)
    requires ValidContext(ctx) && AllValid(ctx.u, v) && DistinctNames(ctx, v)
    ensures DistinctIds(ModelsOf(ctx, v))
  {
    var ms := ModelsOf(ctx, v);
    forall i, j | 0 <= i < j < |ms| ensures ms[i].id != ms[j].id {
      assert ms[i].id == ctx.tr.typeName(v[i]);
      assert ms[j].id == ctx.tr.typeName(v[j]);
    }
  }

  /**
   * A terminal type, and a type whose translated name is already stored, leave the
   * stored models as they are and trigger no visit of members.
   */
  lemma WalkSkips(ctx: Context, v: seq<TypeId>, t: TypeId)
    requires ValidContext(ctx) && AllValid(ctx.u, v) && ValidType(ctx.u, t)
    requires IsTerminal(ctx, t)
      || (None !in Names(ctx, v) && (ctx.tr.typeName(t) in Names(ctx, v) || Members(ctx, t) == []))
    ensures Walk(ctx, v, t) == Some(v)
  {
  }

  /** A non-terminal type met after a `null` model id ends the walk. */
  lemma WalkStops(ctx: Context, v: seq<TypeId>, t: TypeId)
    requires ValidContext(ctx) && AllValid(ctx.u, v) && ValidType(ctx.u, t)
    requires !IsTerminal(ctx, t) && None in Names(ctx, v)
    ensures Walk(ctx, v, t).None?
  {
  }

  /**
   * `parseModel` stores a model exactly when the type is opened, has elements and its
   * name is not stored yet; that model is stored before those of its members.
   */
  lemma WalkStores(ctx: Context, v: seq<TypeId>, t: TypeId)
    requires ValidContext(ctx) && AllValid(ctx.u, v) && ValidType(ctx.u, t)
    requires Walk(ctx, v, t).Some?
    ensures |Walk(ctx, v, t).value| > |v| <==> Produces(ctx, t) && ctx.tr.typeName(t) !in Names(ctx, v)
    ensures |Walk(ctx, v, t).value| > |v| ==> Walk(ctx, v, t).value[|v|] == t
    ensures |Walk(ctx, v, t).value| == |v| ==> Walk(ctx, v, t).value == v
  {
    if Produces(ctx, t) && ctx.tr.typeName(t) !in Names(ctx, v) {
      WalkOpens(ctx, v, t);
      var r := Walk(ctx, v, t).value;
      assert v + [t] <= r;
      assert (v + [t])[|v|] == t;
    }
  }

  /**
   * What `parse` returns when it returns normally: the models have pairwise distinct
   * ids; each is the model of an opened type with at least one element; the root and
   * every member type and first type argument of every stored type is handled; and
   * when the root itself produces a model, that model comes first.
   */
  lemma ParseOutcome(ctx: Context, root: TypeId, v: seq<TypeId>)
    requires ValidContext(ctx) && ValidType(ctx.u, root)
    requires Walk(ctx, [], root) == Some(v)
    ensures AllValid(ctx.u, v) && DistinctIds(ModelsOf(ctx, v))
    ensures forall k | 0 <= k < |v| :: Produces(ctx, v[k])
    ensures Handled(ctx, v, root) && ClosedFrom(ctx, v, 0)
    ensures Produces(ctx, root) ==> |v| > 0 && v[0] == root
  {
    WalkSound(ctx, [], root);
    WalkClosed(ctx, [], root);
    assert DistinctNames(ctx, []);
    DistinctModels(ctx, v);
    assert Names(ctx, []) == {};
    WalkStores(ctx, [], root);
  }

  // ---------------------------------------------------------------------------
  // Steps of the loops, one element at a time

  /** One turn of the field loop of `findReferencedTypes`. */
  lemma FieldTurn(tr: Translator, fields: seq<FieldDoc>, i: nat)
    requires i < |fields|
    ensures var f := fields[i];
      var prev := Dedup(FieldEntries(tr, fields[..i]));
      Dedup(FieldEntries(tr, fields[..i + 1])) ==
        if !f.isStatic && tr.fieldName(f).Some? && tr.fieldName(f).value !in Keys(prev)
        then prev + [Entry(tr.fieldName(f).value, TypeHolder(f.fieldType, f.rawCommentText))]
        else prev
  {
    var f := fields[i];
    var s := FieldEntries(tr, fields[..i]);
    assert fields[..i + 1][..i] == fields[..i];
    if !f.isStatic && tr.fieldName(f).Some? {
      var e := Entry(tr.fieldName(f).value, TypeHolder(f.fieldType, f.rawCommentText));
      assert (s + [e])[..|s|] == s;
    }
  }

  /** One turn of the method loop of `findReferencedTypes`, after the field entries `fe`. */
  lemma MethodTurn(tr: Translator, fe: seq<Entry>, methods: seq<MethodDoc>, j: nat)
    requires j < |methods|
    ensures var m := methods[j];
      var prev := Dedup(fe + MethodEntries(tr, methods[..j]));
      Dedup(fe + MethodEntries(tr, methods[..j + 1])) ==
        if !m.isStatic && tr.methodName(m).Some? && tr.methodName(m).value !in Keys(prev)
        then prev + [Entry(tr.methodName(m).value, TypeHolder(m.returnType, ReturnText(m)))]
        else prev
  {
    var m := methods[j];
    var s := fe + MethodEntries(tr, methods[..j]);
    assert methods[..j + 1][..j] == methods[..j];
    if !m.isStatic && tr.methodName(m).Some? {
      var e := Entry(tr.methodName(m).value, TypeHolder(m.returnType, ReturnText(m)));
      assert fe + MethodEntries(tr, methods[..j + 1]) == s + [e];
      assert (s + [e])[..|s|] == s;
    }
  }

  lemma ElementsOfStep(ctx: Context, s: seq<Entry>, i: nat)
    requires ValidContext(ctx) && ValidEntries(ctx.u, s) && i < |s|
    ensures ValidEntries(ctx.u, s[..i]) && ValidEntries(ctx.u, s[..i + 1])
    ensures ElementsOf(ctx, s[..i + 1]) == ElementsOf(ctx, s[..i])[s[i].name := Classify(ctx, s[i].holder)]
  {
    assert s[..i + 1][..i] == s[..i];
    assert forall k | 0 <= k <= i :: s[..i + 1][k] == s[k];
  }

  /** The first turn of `WalkAll`, then the rest. */
  lemma WalkAllCons(ctx: Context, v: seq<TypeId>, holders: seq<Entry>, budget: nat)
    requires ValidContext(ctx) && AllValid(ctx.u, v) && ValidEntries(ctx.u, holders)
    requires Remaining(ctx, v) < budget && holders != []
    ensures ValidEntries(ctx.u, holders[1..])
    ensures WalkAll(ctx, v, holders, budget) ==
      match WalkHolder(ctx, v, holders[0].holder.holderType)
      case None => None
      case Some(w) => WalkAll(ctx, w, holders[1..], budget)
  {
    assert forall i | 0 <= i < |holders| - 1 :: holders[1..][i] == holders[i + 1];
  }

  /** The branch of `Walk` that stores the type and walks its members. */
  lemma WalkOpens(ctx: Context, v: seq<TypeId>, t: TypeId)
    requires ValidContext(ctx) && AllValid(ctx.u, v) && ValidType(ctx.u, t)
    requires !IsTerminal(ctx, t) && None !in Names(ctx, v)
    requires ctx.tr.typeName(t) !in Names(ctx, v) && Members(ctx, t) != []
    ensures AllValid(ctx.u, v + [t]) && Remaining(ctx, v + [t]) < Remaining(ctx, v)
    ensures Walk(ctx, v, t) == WalkAll(ctx, v + [t], Members(ctx, t), Remaining(ctx, v))
  {
    GrowsByOne(ctx, v, t);
  }

  /** Stored types only ever grow at the end, and so do the models. */
  lemma ModelsGrow(ctx: Context, a: seq<TypeId>, b: seq<TypeId>)
    requires ValidContext(ctx) && AllValid(ctx.u, b) && a <= b
    ensures AllValid(ctx.u, a) && ModelsOf(ctx, a) <= ModelsOf(ctx, b)
  {
    assert forall k | 0 <= k < |a| :: a[k] == b[k];
  }

  lemma ModelsSnoc(ctx: Context, v: seq<TypeId>, t: TypeId)
    requires ValidContext(ctx) && AllValid(ctx.u, v) && ValidType(ctx.u, t)
    ensures AllValid(ctx.u, v + [t])
    ensures ModelsOf(ctx, v + [t]) == ModelsOf(ctx, v) + [ModelOf(ctx, t)]
  {
    var w := v + [t];
    assert forall k | 0 <= k < |v| :: w[k] == v[k];
    assert w[|v|] == t;
  }

  /**
   * One walk over a root type. `sources` is the type each stored model was made from,
   * in insertion order; it has no counterpart in the Java class and exists only to
   * state what `models` holds.
   */
  class ApiModelParser {
    const translator: Translator
    const universe: Universe
    const rootType: TypeId
    /** The two opaque lists of the options, read when the parser is built. */
    const typesToTreatAsOpaque: seq<string>
    const packagesToTreatAsOpaque: seq<string>
    var models: seq<Model>
    ghost var sources: seq<TypeId>

    /** What the walk consults; none of it changes during a walk. */
    function Ctx(): Context {
      Context(universe, translator, typesToTreatAsOpaque, packagesToTreatAsOpaque)
    }

    ghost predicate Valid()
      reads this
    {
      && ValidContext(Ctx())
      && ValidType(universe, rootType)
      && AllValid(universe, sources)
      && models == ModelsOf(Ctx(), sources)
    }

    constructor (options: Doclet.DocletOptions, translator: Translator, universe: Universe, rootType: TypeId)
      requires WellFormed(universe) && ValidType(universe, rootType)
      ensures Valid()
      ensures this.translator == translator && this.universe == universe && this.rootType == rootType
      ensures typesToTreatAsOpaque == options.typesToTreatAsOpaque
      ensures packagesToTreatAsOpaque == options.packagesToTreatAsOpaque
      ensures models == [] && sources == []
    {
      this.translator := translator;
      this.universe := universe;
      this.rootType := rootType;
      typesToTreatAsOpaque := options.typesToTreatAsOpaque;
      packagesToTreatAsOpaque := options.packagesToTreatAsOpaque;
      models := [];
      sources := [];
    }

    /**
     * `parse`: walk from the root type and return the stored models; `None` where the
     * walk throws.
     */
    method Parse() returns (result: Option<seq<Model>>)
      requires Valid()
      modifies this
      ensures Valid()
      ensures result.Some? <==> Walk(Ctx(), old(sources), rootType).Some?
      ensures result.Some? ==> sources == Walk(Ctx(), old(sources), rootType).value && result.value == models
      ensures result.Some? ==> old(models) <= models
    {
      var ok := ParseModel(rootType);
      if !ok {
        return None;
      }
      ModelsGrow(Ctx(), old(sources), sources);
      return Some(models);
    }

    /**
     * `parseModel`: `false` where the Java code throws (a stored model with a null id
     * makes `alreadyStoredType` throw).
     */
    method ParseModel(t: TypeId) returns (ok: bool)
      requires Valid() && ValidType(universe, t)
      modifies this
      ensures Valid()
      ensures ok <==> Walk(Ctx(), old(sources), t).Some?
      ensures ok ==> sources == Walk(Ctx(), old(sources), t).value
      decreases Remaining(Ctx(), sources), 1, 1
    {
      var info := universe.types[t];
      assert ValidTypeInfo(universe, info);
      var name := info.qualifiedName;
      var isPrimitive := info.isPrimitive;
      var isJavaxType := "javax." <= name;
      var isBaseObject := name == "java.lang.Object";
      var isTypeToTreatAsOpaque := name in typesToTreatAsOpaque
        || StartsWithAny(packagesToTreatAsOpaque, name);
      var classDoc := info.classDoc;
      assert IsTerminal(Ctx(), t) <==>
        isPrimitive || isJavaxType || isBaseObject || isTypeToTreatAsOpaque || classDoc.None?;
      if isPrimitive || isJavaxType || isBaseObject || isTypeToTreatAsOpaque || classDoc.None? {
        WalkSkips(Ctx(), sources, t);
        return true;
      }
      var stored := AlreadyStoredType(models, translator.typeName(t));
      IdsOfModels(Ctx(), sources);
      if stored.None? {
        WalkStops(Ctx(), sources, t);
        return false;
      }
      if stored.value {
        WalkSkips(Ctx(), sources, t);
        return true;
      }
      var types := FindReferencedTypes(classDoc.value);
      assert types == Members(Ctx(), t);
      var elements := FindReferencedElements(types);
      ElementsEmpty(Ctx(), t);
      if |elements| > 0 {
        ok := AddModel(t, types, elements);
      } else {
        WalkSkips(Ctx(), sources, t);
        ok := true;
      }
    }

    /**
     * The last step of `parseModel` for a type it opens: store the type's model, then
     * walk its member types.
     */
    method AddModel(t: TypeId, types: seq<Entry>, elements: map<string, Property>) returns (ok: bool)
      requires Valid() && ValidType(universe, t)
      requires !IsTerminal(Ctx(), t) && None !in Names(Ctx(), sources)
      requires translator.typeName(t) !in Names(Ctx(), sources)
      requires types == Members(Ctx(), t) && types != []
      requires elements == TypeElements(Ctx(), t)
      modifies this
      ensures Valid()
      ensures ok <==> Walk(Ctx(), old(sources), t).Some?
      ensures ok ==> sources == Walk(Ctx(), old(sources), t).value
      decreases Remaining(Ctx(), sources), 1, 0
    {
      ghost var before := sources;
      WalkOpens(Ctx(), sources, t);
      ModelsSnoc(Ctx(), sources, t);
      models := models + [Model(translator.typeName(t), elements)];
      sources := sources + [t];
      ok := ParseNestedModels(types, Remaining(Ctx(), before));
    }

    /**
     * `parseNestedModels`: each member type, then its first type argument if it has
     * one. `budget` is the termination measure of the `parseModel` call that owns
     * this loop.
     */
    method ParseNestedModels(types: seq<Entry>, ghost budget: nat) returns (ok: bool)
      requires Valid() && ValidEntries(universe, types)
      requires Remaining(Ctx(), sources) < budget
      modifies this
      ensures Valid()
      ensures ok <==> WalkAll(Ctx(), old(sources), types, budget).Some?
      ensures ok ==> sources == WalkAll(Ctx(), old(sources), types, budget).value
      decreases budget, 0, 0
    {
      var i := 0;
      while i < |types|
        invariant 0 <= i <= |types| && Valid()
        invariant Remaining(Ctx(), sources) < budget
        invariant ValidEntries(universe, types[i..])
        invariant WalkAll(Ctx(), old(sources), types, budget) == WalkAll(Ctx(), sources, types[i..], budget)
      {
        var holderType := types[i].holder.holderType;
        assert types[i..][0] == types[i] && types[i..][1..] == types[i + 1..];
        WalkAllCons(Ctx(), sources, types[i..], budget);
        ghost var before := sources;
        ok := ParseModel(holderType);
        if !ok {
          return;
        }
        var pt := TypeArgument(universe, holderType);
        if pt.Some? {
          ok := ParseModel(pt.value);
          if !ok {
            return;
          }
        }
        assert WalkHolder(Ctx(), before, holderType) == Some(sources);
        i := i + 1;
      }
      return true;
    }

    /** `allFields`: the given fields, then those of the declaration and its superclasses. */
    method AllFields(classDoc: Option<ClassId>, fieldDocs: seq<FieldDoc>) returns (result: seq<FieldDoc>)
      requires WellFormed(universe)
      requires classDoc.Some? ==> classDoc.value < |universe.classes|
      ensures result == fieldDocs + if classDoc.Some? then ChainFields(universe, classDoc.value) else []
      decreases if classDoc.Some? then classDoc.value + 1 else 0
    {
      if classDoc.None? {
        return fieldDocs;
      }
      var cd := universe.classes[classDoc.value];
      assert ValidClass(universe, classDoc.value);
      result := AllFields(cd.superclass, fieldDocs + cd.fields);
    }

    /**
     * `findReferencedTypes`: the non-static fields of the class and its superclasses,
     * then its non-static methods, each under its translated name unless that name is
     * null or already taken.
     */
    method FindReferencedTypes(c: ClassId) returns (elements: seq<Entry>)
      requires WellFormed(universe) && c < |universe.classes|
      ensures elements == ReferencedTypes(Ctx(), c)
    {
      elements := [];
      var fieldDocs := AllFields(Some(c), []);
      assert fieldDocs == ChainFields(universe, c);
      for i := 0 to |fieldDocs|
        invariant elements == Dedup(FieldEntries(translator, fieldDocs[..i]))
      {
        var field := fieldDocs[i];
        FieldTurn(translator, fieldDocs, i);
        if field.isStatic {
          continue;
        }
        var name := translator.fieldName(field);
        if name.Some? && name.value !in Keys(elements) {
          elements := elements + [Entry(name.value, TypeHolder(field.fieldType, field.rawCommentText))];
        }
      }
      assert fieldDocs[..|fieldDocs|] == fieldDocs;
      var fieldEntries := FieldEntries(translator, fieldDocs);
      var methodDocs := universe.classes[c].methods;
      if methodDocs.Some? {
        var ms := methodDocs.value;
        assert fieldEntries + MethodEntries(translator, ms[..0]) == fieldEntries by {
          assert ms[..0] == [];
        }
        for j := 0 to |ms|
          invariant elements == Dedup(fieldEntries + MethodEntries(translator, ms[..j]))
        {
          var method_ := ms[j];
          MethodTurn(translator, fieldEntries, ms, j);
          if method_.isStatic {
            continue;
          }
          var name := translator.methodName(method_);
          if name.Some? && name.value !in Keys(elements) {
            elements := elements + [Entry(name.value, TypeHolder(method_.returnType, ReturnText(method_)))];
          }
        }
        assert ms[..|ms|] == ms;
      } else {
        assert fieldEntries + MethodEntries(translator, []) == fieldEntries;
      }
    }

    /**
     * `findReferencedElements`: the property of each member under the member's name.
     */
    method FindReferencedElements(types: seq<Entry>) returns (elements: map<string, Property>)
      requires WellFormed(universe) && ValidEntries(universe, types)
      ensures elements == ElementsOf(Ctx(), types)
    {
      elements := map[];
      for i := 0 to |types|
        invariant ValidEntries(universe, types[..i])
        invariant elements == ElementsOf(Ctx(), types[..i])
      {
        ElementsOfStep(Ctx(), types, i);
        var typeName := types[i].name;
        var typeHolder := types[i].holder;
        var holderType := typeHolder.holderType;
        var info := universe.types[holderType];
        assert ValidTypeInfo(universe, info);
        var typeClassDoc := info.classDoc;
        var containerOf := TypeArgument(universe, holderType);
        var containerTypeOf := if containerOf.None? then None else translator.typeName(containerOf.value);
        var propertyName := translator.typeName(holderType);
        var property;
        if typeClassDoc.Some? && universe.classes[typeClassDoc.value].isEnum {
          property := EnumProperty(universe.classes[typeClassDoc.value].enumConstants, typeHolder.description);
        } else {
          property := TypedProperty(propertyName, typeHolder.description, containerTypeOf);
        }
        elements := elements[typeName := property];
      }
      assert types[..|types|] == types;
    }
  }
}
