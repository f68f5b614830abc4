/**
 * A finite, read-only stand-in for the javadoc reflection API (`Type`, `ClassDoc`,
 * `FieldDoc`, `MethodDoc`, `ParameterizedType`) that the model walker queries.
 * Types and class declarations live in two tables and refer to each other by index,
 * so that self-referential and mutually referential type graphs can be written down.
 */
module Javadoc {
  import opened Wrappers

  /** Index of a type in `Universe.types`. */
  type TypeId = nat
  /** Index of a class declaration in `Universe.classes`. */
  type ClassId = nat

  /** A field: `isStatic()`, `type()` and `getRawCommentText()`. */
  datatype FieldDoc = FieldDoc(name: string, isStatic: bool, fieldType: TypeId, rawCommentText: string)

  /** A method: `isStatic()`, `returnType()` and the texts of its `@return` tags, in order. */
  datatype MethodDoc = MethodDoc(name: string, isStatic: bool, returnType: TypeId, returnTags: seq<string>)

  /**
   * A class declaration. `methods` is `None` where `methods()` answers null;
   * `superclass` is `None` at the top of the chain.
   */
  datatype ClassDoc = ClassDoc(
    fields: seq<FieldDoc>,
    methods: Option<seq<MethodDoc>>,
    superclass: Option<ClassId>,
    isEnum: bool,
    enumConstants: seq<string>)

  /**
   * A type reference: its qualified name, whether it counts as primitive, its class
   * declaration (`asClassDoc()`, `None` for null) and, when `asParameterizedType()` is
   * not null, its type arguments.
   */
  datatype TypeInfo = TypeInfo(
    qualifiedName: string,
    isPrimitive: bool,
    classDoc: Option<ClassId>,
    typeArguments: Option<seq<TypeId>>)

  datatype Universe = Universe(types: seq<TypeInfo>, classes: seq<ClassDoc>)

  predicate ValidType(u: Universe, t: TypeId) {
    t < |u.types|
  }

  predicate ValidField(u: Universe, f: FieldDoc) {
    ValidType(u, f.fieldType)
  }

  predicate ValidMethod(u: Universe, m: MethodDoc) {
    ValidType(u, m.returnType)
  }

  /**
   * Every reference points into the tables, and each superclass link points to a
   * declaration with a smaller index. The last condition says that Java class
   * hierarchies are acyclic: any acyclic hierarchy can be numbered that way.
   */
  predicate ValidClass(u: Universe, c: ClassId)
    requires c < |u.classes|
  {
    var cd := u.classes[c];
    && (forall f | f in cd.fields :: ValidField(u, f))
    && (cd.methods.Some? ==> forall m | m in cd.methods.value :: ValidMethod(u, m))
    && (cd.superclass.Some? ==> cd.superclass.value < c)
  }

  predicate ValidTypeInfo(u: Universe, info: TypeInfo) {
    && (info.classDoc.Some? ==> info.classDoc.value < |u.classes|)
    && (info.typeArguments.Some? ==> forall a | a in info.typeArguments.value :: ValidType(u, a))
  }

  predicate WellFormed(u: Universe) {
    && (forall c | 0 <= c < |u.classes| :: ValidClass(u, c))
    && (forall info | info in u.types :: ValidTypeInfo(u, info))
  }

  /** The methods of a declaration, with a null array read as no methods. */
  function MethodsOf(cd: ClassDoc): seq<MethodDoc> {
    if cd.methods.Some? then cd.methods.value else []
  }

  /**
   * `getTypeArgument`: the first type argument of a parameterized type, and null when
   * the type is not parameterized or has no type arguments.
   */
  function TypeArgument(u: Universe, t: TypeId): (r: Option<TypeId>)
    requires WellFormed(u) && ValidType(u, t)
    ensures r.Some? <==> u.types[t].typeArguments.Some? && |u.types[t].typeArguments.value| > 0
    ensures r.Some? ==> r.value == u.types[t].typeArguments.value[0] && ValidType(u, r.value)
  {
    var info := u.types[t];
    assert ValidTypeInfo(u, info);
    if info.typeArguments.Some? && |info.typeArguments.value| > 0 then
      Some(info.typeArguments.value[0])
    else
      None
  }

  /**
   * `allFields`: the fields of a declaration followed by those of its superclass, up
   * the chain until there is no superclass.
   */
  function ChainFields(u: Universe, c: ClassId): (r: seq<FieldDoc>)
    requires WellFormed(u) && c < |u.classes|
    ensures u.classes[c].fields <= r
    ensures forall f | f in r :: ValidField(u, f)
    decreases c
  {
    var cd := u.classes[c];
    assert ValidClass(u, c);
    if cd.superclass.Some? then cd.fields + ChainFields(u, cd.superclass.value) else cd.fields
  }
}
