/** The projection-fragment generator of src/translate.js: each rule appends one
    `fieldName: <expression>` clause to the accumulated projection text and
    returns it together with the thread-through parameters. The rules are written
    as the same string concatenations the source performs; each one is proved to
    equal the rendering of a structured plan (module Cypher). */
module Translate {
  import opened Cypher

  /** A GraphQL output type as graphql-js represents it: the two wrapper types
      carry an `ofType`, named types do not. */
  datatype GraphQLType = NamedType(name: string) | ListType(ofType: GraphQLType) | NonNullType(ofType: GraphQLType)

  /** The helpers imported from ./utils. Their code is not part of this model, so
      they are uninterpreted: every rule is stated for whatever they compute. */
  datatype Utils = Utils(
    isArrayType: GraphQLType -> bool,
    getReturnVal: string -> string,
    removeMatch: string -> string,
    removeReturn: string -> string)

  datatype Option<T> = None | Some(value: T)

  /** The pair of pre-bound variables of a relationship-mutation payload. */
  datatype RootVariableNames = RootVariableNames(from: string, to: string)

  /** A value held in a returned object: the projection text, the root variable
      pair, or any other thread-through value, which the rules only copy. */
  datatype Value = Str(text: string) | Roots(names: RootVariableNames) | Other(repr: string)

  /** A JavaScript object as a map from property name to value. */
  type JsObject = map<string, Value>

  datatype SchemaType = SchemaType(name: string)

  /** The relationship directive of a relationship type: its name and the names
      of its two endpoint node types. */
  datatype RelationDescriptor = RelationDescriptor(name: string, from: string, to: string)

  /** The destructured parameter object of the rules. Text-valued fields hold the
      text they interpolate to; each rule reads only its own fields. */
  datatype Params = Params(
    initial: string,
    fieldName: string,
    fieldType: GraphQLType,
    variableName: string,
    nestedVariable: string,
    queryParams: string,
    subSelection: seq<string>,
    skipLimit: string,
    commaIfTail: string,
    tailParams: JsObject,
    customCypher: string,
    relDirection: string,
    relType: string,
    isInlineFragment: bool,
    interfaceLabel: string,
    schemaType: SchemaType,
    innerSchemaType: SchemaType,
    schemaTypeRelation: RelationDescriptor,
    innerSchemaTypeRelation: RelationDescriptor)

  /** `subSelection[0]` as a template literal interpolates it: a missing first
      element reads as `undefined`. */
  function FirstSelection(subSelection: seq<string>): string {
    if |subSelection| > 0 then subSelection[0] else "undefined"
  }

  /** `!!fieldType.ofType`: true for list and non-null wrappers. */
  predicate HasOfType(t: GraphQLType) {
    !t.NamedType?
  }

  predicate IsIn(relDirection: string) {
    relDirection == "in" || relDirection == "IN"
  }

  predicate IsOut(relDirection: string) {
    relDirection == "out" || relDirection == "OUT"
  }

  /** What every rule promises about its returned object: it holds `initial`
      and every `tailParams` entry, each with its original value. */
  predicate ThreadsThrough(p: Params, r: JsObject) {
    && r.Keys == {"initial"} + p.tailParams.Keys
    && (forall k :: k in p.tailParams ==> r[k] == p.tailParams[k])
  }

  /** The object literal `{initial: text, ...tailParams}`. A spread entry
      overrides an earlier key of the same name, as map union does. */
  function Emit(text: string, tailParams: JsObject): (r: JsObject)
    ensures r.Keys == {"initial"} + tailParams.Keys
    ensures forall k :: k in tailParams ==> r[k] == tailParams[k]
    ensures "initial" !in tailParams ==> r["initial"] == Str(text)
  {
    map["initial" := Str(text)] + tailParams
  }

  /** `initial` followed by the opening `fieldName: ` of the new clause. */
  function Lead(p: Params): string {
    p.initial + p.fieldName + ": "
  }

  /** The closing `skipLimit commaIfTail` of a clause. */
  function Trail(p: Params): string {
    p.skipLimit + " " + p.commaIfTail
  }

  /** The accumulated text followed by one `fieldName: <expression>` clause. */
  function Clause(p: Params, e: Expr): string {
    RenderOnto(p.initial + p.fieldName + ": ", e) + p.skipLimit + " " + p.commaIfTail
  }

  // ---------------------------------------------------------------------------
  // Plans: what each rule emits, as a structured expression.

  /** The projection's `FRAGMENT_TYPE` entry, present under an inline fragment. */
  function Discriminator(p: Params): FragmentType {
    if p.isInlineFragment then FragmentType(p.interfaceLabel) else NoFragmentType
  }

  /** The label of a traversal's target node: the interface label under an
      inline fragment, otherwise the schema type name. */
  function TargetLabel(p: Params, typeName: string): string {
    if p.isInlineFragment then p.interfaceLabel else typeName
  }

  function CustomCypherPlan(u: Utils, p: Params, isList: bool): Expr {
    Comprehension(!isList,
      Subquery(u.removeReturn(u.removeMatch(p.customCypher))),
      Projection(u.getReturnVal(p.customCypher), NoFragmentType, FirstSelection(p.subSelection)))
  }

  function NodeRelationPlan(u: Utils, p: Params): Expr {
    Comprehension(!u.isArrayType(p.fieldType),
      Traversal(Path(
        Element(p.variableName, NoLabel, ""),
        IsIn(p.relDirection),
        Element("", Label(p.relType), ""),
        IsOut(p.relDirection),
        Element(p.nestedVariable, Label(TargetLabel(p, p.innerSchemaType.name)), p.queryParams))),
      Projection(p.nestedVariable, Discriminator(p), FirstSelection(p.subSelection)))
  }

  function RelationTypeFieldPlan(u: Utils, p: Params): Expr {
    var rel := p.innerSchemaTypeRelation;
    var here := p.schemaType.name;
    if rel.from == rel.to then
      MapLiteral(FirstSelection(p.subSelection))
    else
      Comprehension(!u.isArrayType(p.fieldType),
        Traversal(Path(
          Element(p.variableName, NoLabel, ""),
          here == rel.to,
          Element(p.nestedVariable + "_relation", Label(rel.name), p.queryParams),
          here == rel.from,
          Element("", Label(if here == rel.from then rel.to else rel.from), ""))),
        Projection(p.nestedVariable + "_relation", NoFragmentType, FirstSelection(p.subSelection)))
  }

  function MutationPayloadPlan(p: Params): Expr {
    Projected(Projection(p.variableName, NoFragmentType, FirstSelection(p.subSelection)))
  }

  predicate IsFromField(p: Params) {
    p.fieldName == p.schemaTypeRelation.from || p.fieldName == "from"
  }

  predicate IsToField(p: Params) {
    p.fieldName == p.schemaTypeRelation.to || p.fieldName == "to"
  }

  /** The relationship variable of a reflexive `from`/`to` traversal. */
  function ReflexiveRelationVariable(p: Params): string {
    p.variableName + "_" + (if IsFromField(p) then "from" else "to") + "_relation"
  }

  function DirectedFieldPlan(u: Utils, p: Params): Expr {
    var rel := p.schemaTypeRelation;
    if rel.from == rel.to then
      if p.fieldName == "from" || p.fieldName == "to" then
        Comprehension(!u.isArrayType(p.fieldType),
          Traversal(Path(
            Element(p.variableName, NoLabel, ""),
            IsFromField(p),
            Element(ReflexiveRelationVariable(p), Label(rel.name), p.queryParams),
            IsToField(p),
            Element(p.nestedVariable, Label(TargetLabel(p, rel.from)), ""))),
          Projection(ReflexiveRelationVariable(p), Discriminator(p), FirstSelection(p.subSelection)))
      else
        Projected(Projection(p.variableName, NoFragmentType, FirstSelection(p.subSelection)))
    else
      Comprehension(!u.isArrayType(p.fieldType),
        Traversal(Path(
          Element("", Label(if IsFromField(p) then rel.to else rel.from), ""),
          IsFromField(p),
          Element(p.variableName + "_relation", NoLabel, ""),
          IsToField(p),
          Element(p.nestedVariable, Label(TargetLabel(p, p.innerSchemaType.name)), p.queryParams))),
        Projection(p.nestedVariable, Discriminator(p), FirstSelection(p.subSelection)))
  }

  // ---------------------------------------------------------------------------
  // The rules, as the source builds them.

  /** Splices a user Cypher fragment into a list comprehension. The fragment's
      MATCH and RETURN clauses are removed and its returned variable is projected.
      List-ness is decided by `!!fieldType.ofType`. */
  function CustomCypherField(u: Utils, p: Params): (r: JsObject)
    ensures ThreadsThrough(p, r)
  {
    var retVal := u.getReturnVal(p.customCypher);
    var customCypher := u.removeReturn(u.removeMatch(p.customCypher));
    var fieldIsList := HasOfType(p.fieldType);
    Emit(p.initial + p.fieldName + ": " + (if fieldIsList then "" else "head(") + "[ " + customCypher + " | "
         + retVal + " {" + FirstSelection(p.subSelection) + "}]" + (if fieldIsList then "" else ")")
         + p.skipLimit + " " + p.commaIfTail,
         p.tailParams)
  }

  /** CustomCypherField with list-ness decided by `isArrayType`, as every other
      rule decides it. */
  function CustomCypherFieldCorrected(u: Utils, p: Params): (r: JsObject)
    ensures ThreadsThrough(p, r)
  {
    var retVal := u.getReturnVal(p.customCypher);
    var customCypher := u.removeReturn(u.removeMatch(p.customCypher));
    var fieldIsList := u.isArrayType(p.fieldType);
    Emit(p.initial + p.fieldName + ": " + (if fieldIsList then "" else "head(") + "[ " + customCypher + " | "
         + retVal + " {" + FirstSelection(p.subSelection) + "}]" + (if fieldIsList then "" else ")")
         + p.skipLimit + " " + p.commaIfTail,
         p.tailParams)
  }

  /** Traversal from the current node to a related node type. */
  function RelationFieldOnNodeType(u: Utils, p: Params): (r: JsObject)
    ensures ThreadsThrough(p, r)
  {
    Emit(p.initial + p.fieldName + ": " + (if !u.isArrayType(p.fieldType) then "head(" else "")
         + "[(" + p.variableName + ")" + (if p.relDirection == "in" || p.relDirection == "IN" then "<" else "")
         + "-[:" + p.relType + "]-" + (if p.relDirection == "out" || p.relDirection == "OUT" then ">" else "")
         + "(" + p.nestedVariable + ":" + (if p.isInlineFragment then p.interfaceLabel else p.innerSchemaType.name)
         + p.queryParams + ") | " + p.nestedVariable + " {"
         + (if p.isInlineFragment
            then "FRAGMENT_TYPE: \"" + p.interfaceLabel + "\"," + FirstSelection(p.subSelection)
            else FirstSelection(p.subSelection))
         + "}]" + (if !u.isArrayType(p.fieldType) then ")" else "") + p.skipLimit + " " + p.commaIfTail,
         p.tailParams)
  }

  /** Projects a relationship-type field of a node: a bare map for a reflexive
      relationship, otherwise a traversal to the opposite endpoint. */
  function RelationTypeFieldOnNodeType(u: Utils, p: Params): (r: JsObject)
    ensures ThreadsThrough(p, r)
  {
    var rel := p.innerSchemaTypeRelation;
    if rel.from == rel.to then
      Emit(p.initial + p.fieldName + ": {" + FirstSelection(p.subSelection) + "}" + p.skipLimit + " " + p.commaIfTail,
           p.tailParams)
    else
      Emit(p.initial + p.fieldName + ": " + (if !u.isArrayType(p.fieldType) then "head(" else "")
           + "[(" + p.variableName + ")" + (if p.schemaType.name == rel.to then "<" else "")
           + "-[" + p.nestedVariable + "_relation:" + rel.name + p.queryParams + "]-"
           + (if p.schemaType.name == rel.from then ">" else "")
           + "(:" + (if p.schemaType.name == rel.from then rel.to else rel.from)
           + ") | " + p.nestedVariable + "_relation {" + FirstSelection(p.subSelection) + "}]"
           + (if !u.isArrayType(p.fieldType) then ")" else "") + p.skipLimit + " " + p.commaIfTail,
           p.tailParams)
  }

  /** Projects the pre-bound root variable and hands the other root variable of
      the pair to the next sibling through `variableName`. */
  function RelationTypeMutationPayloadField(p: Params, rootVariableNames: RootVariableNames): (r: JsObject)
    ensures r.Keys == {"initial", "rootVariableNames", "variableName"} + p.tailParams.Keys
    ensures forall k :: k in p.tailParams && k != "rootVariableNames" && k != "variableName" ==> r[k] == p.tailParams[k]
    ensures r["rootVariableNames"] == Roots(rootVariableNames)
    ensures r["variableName"] == Str(if p.fieldName == "from" then rootVariableNames.to else rootVariableNames.from)
  {
    Emit(p.initial + p.fieldName + ": " + p.variableName + " {" + FirstSelection(p.subSelection) + "}"
         + p.skipLimit + " " + p.commaIfTail,
         p.tailParams)
      ["rootVariableNames" := Roots(rootVariableNames)]
      ["variableName" := Str(if p.fieldName == "from" then rootVariableNames.to else rootVariableNames.from)]
  }

  /** Endpoint field of a relationship type: the reflexive `from`/`to`
      traversal, the reflexive renamed field, or the traversal anchored at the
      opposite endpoint of a relationship between distinct types. */
  function DirectedFieldOnReflexiveRelationType(u: Utils, p: Params): (r: JsObject)
    ensures ThreadsThrough(p, r)
  {
    var relType := p.schemaTypeRelation.name;
    var fromTypeName := p.schemaTypeRelation.from;
    var toTypeName := p.schemaTypeRelation.to;
    var isFromField := p.fieldName == fromTypeName || p.fieldName == "from";
    var isToField := p.fieldName == toTypeName || p.fieldName == "to";
    var relationshipVariableName := p.variableName + "_" + (if isFromField then "from" else "to") + "_relation";
    if fromTypeName == toTypeName then
      if p.fieldName == "from" || p.fieldName == "to" then
        Emit(p.initial + p.fieldName + ": " + (if !u.isArrayType(p.fieldType) then "head(" else "")
             + "[(" + p.variableName + ")" + (if isFromField then "<" else "")
             + "-[" + relationshipVariableName + ":" + relType + p.queryParams + "]-" + (if isToField then ">" else "")
             + "(" + p.nestedVariable + ":" + (if p.isInlineFragment then p.interfaceLabel else fromTypeName)
             + ") | " + relationshipVariableName + " {"
             + (if p.isInlineFragment
                then "FRAGMENT_TYPE: \"" + p.interfaceLabel + "\"," + FirstSelection(p.subSelection)
                else FirstSelection(p.subSelection))
             + "}]" + (if !u.isArrayType(p.fieldType) then ")" else "") + p.skipLimit + " " + p.commaIfTail,
             p.tailParams)
      else
        Emit(p.initial + p.fieldName + ": " + p.variableName + " {" + FirstSelection(p.subSelection) + "}"
             + p.skipLimit + " " + p.commaIfTail,
             p.tailParams)
    else
      Emit(p.initial + p.fieldName + ": " + (if !u.isArrayType(p.fieldType) then "head(" else "")
           + "[(:" + (if isFromField then toTypeName else fromTypeName) + ")" + (if isFromField then "<" else "")
           + "-[" + p.variableName + "_relation]-" + (if isToField then ">" else "")
           + "(" + p.nestedVariable + ":" + (if p.isInlineFragment then p.interfaceLabel else p.innerSchemaType.name)
           + p.queryParams + ") | " + p.nestedVariable + " {"
           + (if p.isInlineFragment
              then "FRAGMENT_TYPE: \"" + p.interfaceLabel + "\"," + FirstSelection(p.subSelection)
              else FirstSelection(p.subSelection))
           + "}]" + (if !u.isArrayType(p.fieldType) then ")" else "") + p.skipLimit + " " + p.commaIfTail,
           p.tailParams)
  }

  /** Endpoint field of a relationship type: the mutation-payload rule when root
      variable names are being threaded through, the directed-field rule (with the
      relationship, target type and fragment context added) otherwise. */
  function NodeTypeFieldOnRelationType(
    u: Utils, fieldInfo: Params, rootVariableNames: Option<RootVariableNames>,
    schemaTypeRelation: RelationDescriptor, innerSchemaType: SchemaType,
    isInlineFragment: bool, interfaceLabel: string): (r: JsObject)
    ensures rootVariableNames.Some? ==>
      && "rootVariableNames" in r && r["rootVariableNames"] == Roots(rootVariableNames.value)
      && "variableName" in r && r["variableName"] == Str(if fieldInfo.fieldName == "from" then rootVariableNames.value.to
                                  else rootVariableNames.value.from)
    ensures rootVariableNames.None? ==> ThreadsThrough(fieldInfo, r)
  {
    if rootVariableNames.Some? then
      RelationTypeMutationPayloadField(fieldInfo, rootVariableNames.value)
    else
      DirectedFieldOnReflexiveRelationType(u, fieldInfo.(schemaTypeRelation := schemaTypeRelation,
        innerSchemaType := innerSchemaType, isInlineFragment := isInlineFragment, interfaceLabel := interfaceLabel))
  }

  // ---------------------------------------------------------------------------
  // Each rule emits exactly the rendering of its plan.

  /** Rendering a traversal from a bound variable along an unnamed relationship
      spells the pattern the way relationFieldOnNodeType writes it. */
  lemma NodeRelationPathSpelling(x: string, v: string, i: bool, rt: string, o: bool, n: string, l: string, qp: string)
    ensures PathOnto(x + "[", Path(Element(v, NoLabel, ""), i, Element("", Label(rt), ""), o, Element(n, Label(l), qp)))
         == x + "[(" + v + ")" + InArrowText(i) + "-[:" + rt + "]-" + OutArrowText(o) + "(" + n + ":" + l + qp + ")"
  {
    assert x + "[" + "(" + v + "" == x + "[(" + v;
    assert x + "[(" + v + ")" + InArrowText(i) + "-[" + "" + ":" + rt + ""
        == x + "[(" + v + ")" + InArrowText(i) + "-[:" + rt;
  }

  /** Rendering the projection that closes a traversal comprehension, with or
      without the inline-fragment discriminator. */
  lemma ProjectionSpelling(prefix: string, n: string, inline: bool, interfaceLabel: string, first: string, close: string)
    ensures ProjectionOnto(prefix + ")" + " | ", Projection(n, if inline then FragmentType(interfaceLabel) else NoFragmentType, first))
            + "]" + close
         == prefix + ") | " + n + " {"
            + (if inline then "FRAGMENT_TYPE: \"" + interfaceLabel + "\"," + first else first)
            + "}]" + close
  {
  }

  lemma RelationFieldOnNodeTypeRendersPlan(u: Utils, p: Params)
    ensures RelationFieldOnNodeType(u, p) == Emit(Clause(p, NodeRelationPlan(u, p)), p.tailParams)
  {
    var singular := !u.isArrayType(p.fieldType);
    var x := p.initial + p.fieldName + ": " + HeadOpen(singular);
    var target := TargetLabel(p, p.innerSchemaType.name);
    NodeRelationPathSpelling(x, p.variableName, IsIn(p.relDirection), p.relType, IsOut(p.relDirection),
      p.nestedVariable, target, p.queryParams);
    ProjectionSpelling(
      x + "[(" + p.variableName + ")" + InArrowText(IsIn(p.relDirection)) + "-[:" + p.relType + "]-"
        + OutArrowText(IsOut(p.relDirection)) + "(" + p.nestedVariable + ":" + target + p.queryParams,
      p.nestedVariable, p.isInlineFragment, p.interfaceLabel, FirstSelection(p.subSelection), HeadClose(singular));
  }

  lemma CustomSpelling(x: string, c: string, retVal: string, first: string, close: string)
    ensures ProjectionOnto(SourceOnto(x + "[", Subquery(c)) + " | ", Projection(retVal, NoFragmentType, first)) + "]" + close
         == x + "[ " + c + " | " + retVal + " {" + first + "}]" + close
  {
  }

  lemma CustomCypherFieldRendersPlan(u: Utils, p: Params)
    ensures CustomCypherField(u, p) == Emit(Clause(p, CustomCypherPlan(u, p, HasOfType(p.fieldType))), p.tailParams)
  {
    var singular := !HasOfType(p.fieldType);
    CustomSpelling(p.initial + p.fieldName + ": " + HeadOpen(singular), u.removeReturn(u.removeMatch(p.customCypher)),
      u.getReturnVal(p.customCypher), FirstSelection(p.subSelection), HeadClose(singular));
  }

  lemma CustomCypherFieldCorrectedRendersPlan(u: Utils, p: Params)
    ensures CustomCypherFieldCorrected(u, p)
         == Emit(Clause(p, CustomCypherPlan(u, p, u.isArrayType(p.fieldType))), p.tailParams)
  {
    var singular := !u.isArrayType(p.fieldType);
    CustomSpelling(p.initial + p.fieldName + ": " + HeadOpen(singular), u.removeReturn(u.removeMatch(p.customCypher)),
      u.getReturnVal(p.customCypher), FirstSelection(p.subSelection), HeadClose(singular));
  }

  lemma MapSpelling(y: string, body: string)
    ensures y + ": " + "{" + body + "}" == y + ": {" + body + "}"
  {
  }

  lemma ProjectedSpelling(y: string, v: string, first: string)
    ensures ProjectionOnto(y, Projection(v, NoFragmentType, first)) == y + v + " {" + first + "}"
  {
  }

  lemma RelationTypePathSpelling(x: string, v: string, i: bool, n: string, name: string, qp: string, o: bool, anchor: string)
    ensures PathOnto(x + "[", Path(Element(v, NoLabel, ""), i, Element(n + "_relation", Label(name), qp), o,
                                   Element("", Label(anchor), "")))
         == x + "[(" + v + ")" + InArrowText(i) + "-[" + n + "_relation:" + name + qp + "]-" + OutArrowText(o)
            + "(:" + anchor + ")"
  {
    var front := x + "[(" + v + ")" + InArrowText(i) + "-[";
    assert x + "[" + "(" + v + "" == x + "[(" + v;
    assert front + (n + "_relation") + ":" == front + n + "_relation:";
    var back := front + n + "_relation:" + name + qp + "]-" + OutArrowText(o);
    assert back + "(" + "" + ":" + anchor + "" == back + "(:" + anchor;
  }

  lemma RelationTypeProjectionSpelling(prefix: string, n: string, first: string, close: string)
    ensures ProjectionOnto(prefix + ")" + " | ", Projection(n + "_relation", NoFragmentType, first)) + "]" + close
         == prefix + ") | " + n + "_relation {" + first + "}]" + close
  {
  }

  lemma RelationTypeFieldOnNodeTypeRendersPlan(u: Utils, p: Params)
    ensures RelationTypeFieldOnNodeType(u, p) == Emit(Clause(p, RelationTypeFieldPlan(u, p)), p.tailParams)
  {
    var rel := p.innerSchemaTypeRelation;
    var here := p.schemaType.name;
    if rel.from == rel.to {
      MapSpelling(p.initial + p.fieldName, FirstSelection(p.subSelection));
    } else {
      var singular := !u.isArrayType(p.fieldType);
      var x := p.initial + p.fieldName + ": " + HeadOpen(singular);
      var anchor := if here == rel.from then rel.to else rel.from;
      RelationTypePathSpelling(x, p.variableName, here == rel.to, p.nestedVariable, rel.name, p.queryParams,
        here == rel.from, anchor);
      RelationTypeProjectionSpelling(
        x + "[(" + p.variableName + ")" + InArrowText(here == rel.to) + "-[" + p.nestedVariable + "_relation:"
          + rel.name + p.queryParams + "]-" + OutArrowText(here == rel.from) + "(:" + anchor,
        p.nestedVariable, FirstSelection(p.subSelection), HeadClose(singular));
    }
  }

  lemma RelationTypeMutationPayloadFieldRendersPlan(p: Params, rootVariableNames: RootVariableNames)
    ensures RelationTypeMutationPayloadField(p, rootVariableNames)
         == Emit(Clause(p, MutationPayloadPlan(p)), p.tailParams)
              ["rootVariableNames" := Roots(rootVariableNames)]
              ["variableName" := Str(if p.fieldName == "from" then rootVariableNames.to else rootVariableNames.from)]
  {
    ProjectedSpelling(p.initial + p.fieldName + ": ", p.variableName, FirstSelection(p.subSelection));
  }

  lemma ReflexivePathSpelling(x: string, v: string, i: bool, rv: string, rt: string, qp: string, o: bool, n: string, l: string)
    ensures PathOnto(x + "[", Path(Element(v, NoLabel, ""), i, Element(rv, Label(rt), qp), o, Element(n, Label(l), "")))
         == x + "[(" + v + ")" + InArrowText(i) + "-[" + rv + ":" + rt + qp + "]-" + OutArrowText(o) + "(" + n + ":" + l + ")"
  {
    assert x + "[" + "(" + v + "" == x + "[(" + v;
    var back := x + "[(" + v + ")" + InArrowText(i) + "-[" + rv + ":" + rt + qp + "]-" + OutArrowText(o) + "(" + n + ":" + l;
    assert back + "" == back;
  }

  lemma EndpointPathSpelling(x: string, anchor: string, i: bool, v: string, o: bool, n: string, l: string, qp: string)
    ensures PathOnto(x + "[", Path(Element("", Label(anchor), ""), i, Element(v + "_relation", NoLabel, ""), o,
                                   Element(n, Label(l), qp)))
         == x + "[(:" + anchor + ")" + InArrowText(i) + "-[" + v + "_relation]-" + OutArrowText(o)
            + "(" + n + ":" + l + qp + ")"
  {
    assert x + "[" + "(" + "" + ":" + anchor + "" == x + "[(:" + anchor;
    var front := x + "[(:" + anchor + ")" + InArrowText(i) + "-[";
    assert front + (v + "_relation") + "" + "]-" == front + v + "_relation]-";
  }

  lemma DirectedFieldOnReflexiveRelationTypeRendersPlan(u: Utils, p: Params)
    ensures DirectedFieldOnReflexiveRelationType(u, p) == Emit(Clause(p, DirectedFieldPlan(u, p)), p.tailParams)
  {
    var rel := p.schemaTypeRelation;
    if rel.from != rel.to {
      EndpointTraversalRendersPlan(u, p);
    } else if p.fieldName == "from" || p.fieldName == "to" {
      ReflexiveTraversalRendersPlan(u, p);
    } else {
      ProjectedSpelling(p.initial + p.fieldName + ": ", p.variableName, FirstSelection(p.subSelection));
    }
  }

  lemma ReflexiveTraversalRendersPlan(u: Utils, p: Params)
    requires p.schemaTypeRelation.from == p.schemaTypeRelation.to
    requires p.fieldName == "from" || p.fieldName == "to"
    ensures DirectedFieldOnReflexiveRelationType(u, p) == Emit(Clause(p, DirectedFieldPlan(u, p)), p.tailParams)
  {
    var rel := p.schemaTypeRelation;
    var singular := !u.isArrayType(p.fieldType);
    var x := p.initial + p.fieldName + ": " + HeadOpen(singular);
    var rv := ReflexiveRelationVariable(p);
    var target := TargetLabel(p, rel.from);
    ReflexivePathSpelling(x, p.variableName, IsFromField(p), rv, rel.name, p.queryParams, IsToField(p),
      p.nestedVariable, target);
    ProjectionSpelling(
      x + "[(" + p.variableName + ")" + InArrowText(IsFromField(p)) + "-[" + rv + ":" + rel.name + p.queryParams
        + "]-" + OutArrowText(IsToField(p)) + "(" + p.nestedVariable + ":" + target,
      rv, p.isInlineFragment, p.interfaceLabel, FirstSelection(p.subSelection), HeadClose(singular));
  }

  lemma EndpointTraversalRendersPlan(u: Utils, p: Params)
    requires p.schemaTypeRelation.from != p.schemaTypeRelation.to
    ensures DirectedFieldOnReflexiveRelationType(u, p) == Emit(Clause(p, DirectedFieldPlan(u, p)), p.tailParams)
  {
    var rel := p.schemaTypeRelation;
    var singular := !u.isArrayType(p.fieldType);
    var x := p.initial + p.fieldName + ": " + HeadOpen(singular);
    var anchor := if IsFromField(p) then rel.to else rel.from;
    var target := TargetLabel(p, p.innerSchemaType.name);
    EndpointPathSpelling(x, anchor, IsFromField(p), p.variableName, IsToField(p), p.nestedVariable, target,
      p.queryParams);
    ProjectionSpelling(
      x + "[(:" + anchor + ")" + InArrowText(IsFromField(p)) + "-[" + p.variableName + "_relation]-"
        + OutArrowText(IsToField(p)) + "(" + p.nestedVariable + ":" + target + p.queryParams,
      p.nestedVariable, p.isInlineFragment, p.interfaceLabel, FirstSelection(p.subSelection), HeadClose(singular));
  }
}
