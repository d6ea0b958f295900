/** What the projection rules promise, stated over their results: the clause is
    only appended, cardinality only wraps, direction only inserts an arrow head,
    an inline fragment only inserts its discriminator, the dispatcher routes on
    the mutation-payload variables, and the traversals point the way the
    relationship does. */
module TranslateProperties {
  import opened Cypher
  import opened Translate

  predicate EndsWith(s: string, t: string) {
    |t| <= |s| && s[|s| - |t|..] == t
  }

  /** The returned text is the incoming accumulator followed by one clause
      `fieldName: ... skipLimit commaIfTail` (unless a `tailParams` entry named
      `initial` replaces it). */
  predicate AppendsOneClause(p: Params, r: JsObject) {
    "initial" !in p.tailParams ==>
      && "initial" in r && r["initial"].Str?
      && Lead(p) <= r["initial"].text
      && EndsWith(r["initial"].text, Trail(p))
  }

  /** A list expression, or its single element when `singular`. */
  function HeadWrapped(singular: bool, list: string): string {
    if singular then "head(" + list + ")" else list
  }

  /** The helpers with every field type read as a list type. */
  function ListTyped(u: Utils): Utils {
    u.(isArrayType := (t: GraphQLType) => true)
  }

  // ---------------------------------------------------------------------------
  // Clauses.

  lemma ClauseAppends(p: Params, e: Expr)
    ensures Clause(p, e) == Lead(p) + Render(e) + Trail(p)
  {
    RenderAppends(Lead(p), e);
    var text := Render(e);
    assert Lead(p) + text + p.skipLimit + " " + p.commaIfTail == Lead(p) + text + (p.skipLimit + " " + p.commaIfTail);
  }

  lemma ClauseKeepsPrefix(p: Params, e: Expr)
    ensures Lead(p) <= Clause(p, e)
    ensures EndsWith(Clause(p, e), Trail(p))
  {
    ClauseAppends(p, e);
    PrefixAndSuffix(Lead(p), Render(e), Trail(p));
  }

  lemma PrefixAndSuffix(a: string, b: string, c: string)
    ensures a <= a + b + c
    ensures EndsWith(a + b + c, c)
  {
  }

  /** A clause emitted with the thread-through parameters appends one clause. */
  lemma EmitAppends(p: Params, e: Expr)
    ensures AppendsOneClause(p, Emit(Clause(p, e), p.tailParams))
  {
    ClauseKeepsPrefix(p, e);
  }

  /** A comprehension clause is the list comprehension, wrapped in `head(`...`)`
      when singular, between the clause's opening and its `skipLimit`. */
  lemma CardinalityWraps(p: Params, e: Expr)
    requires e.Comprehension?
    ensures Clause(p, e) == Lead(p) + HeadWrapped(e.singular, Render(e.(singular := false))) + Trail(p)
  {
    ClauseAppends(p, e);
    if e.singular {
      SingularWrapsList(e.source, e.projection);
    }
  }

  /** A traversal clause is its path followed by text the path does not affect. */
  lemma TraversalClauseSplit(p: Params, singular: bool, path: Path, pr: Projection)
    ensures Clause(p, Comprehension(singular, Traversal(path), pr))
         == PathOnto(Lead(p) + HeadOpen(singular) + "[", path)
            + (" | " + ProjectionOnto("", pr) + "]" + HeadClose(singular) + Trail(p))
  {
    var prefix := PathOnto(Lead(p) + HeadOpen(singular) + "[", path);
    ProjectionAppends(prefix + " | ", pr);
    TailRegroup(prefix + " | " + ProjectionOnto("", pr), "]", HeadClose(singular), p.skipLimit, " ", p.commaIfTail);
    SeparatorRegroup(prefix, " | ", ProjectionOnto("", pr), "]" + HeadClose(singular) + Trail(p));
  }

  lemma SeparatorRegroup(x: string, a: string, b: string, c: string)
    ensures x + a + b + c == x + (a + b + c)
  {
  }

  /** A comprehension clause is its projection followed by text the
      projection does not affect. */
  lemma ProjectionClauseSplit(p: Params, singular: bool, source: Source, pr: Projection)
    ensures Clause(p, Comprehension(singular, source, pr))
         == ProjectionOnto(SourceOnto(Lead(p) + HeadOpen(singular) + "[", source) + " | ", pr)
            + ("]" + HeadClose(singular) + Trail(p))
  {
    var prefix := ProjectionOnto(SourceOnto(Lead(p) + HeadOpen(singular) + "[", source) + " | ", pr);
    TailRegroup(prefix, "]", HeadClose(singular), p.skipLimit, " ", p.commaIfTail);
  }

  lemma TailRegroup(x: string, a: string, b: string, c: string, d: string, e: string)
    ensures x + a + b + c + d + e == x + (a + b + (c + d + e))
  {
  }

  // ---------------------------------------------------------------------------
  // Append-only and thread-through.

  /** Every rule only appends one clause to `initial` and keeps every
      `tailParams` entry (the mutation-payload rule keeps them except the two
      it overrides, as its own contract states). */
  lemma CustomCypherFieldAppends(u: Utils, p: Params)
    ensures AppendsOneClause(p, CustomCypherField(u, p))
  {
    CustomCypherFieldRendersPlan(u, p);
    EmitAppends(p, CustomCypherPlan(u, p, HasOfType(p.fieldType)));
  }

  lemma RelationFieldOnNodeTypeAppends(u: Utils, p: Params)
    ensures AppendsOneClause(p, RelationFieldOnNodeType(u, p))
  {
    RelationFieldOnNodeTypeRendersPlan(u, p);
    EmitAppends(p, NodeRelationPlan(u, p));
  }

  lemma RelationTypeFieldOnNodeTypeAppends(u: Utils, p: Params)
    ensures AppendsOneClause(p, RelationTypeFieldOnNodeType(u, p))
  {
    RelationTypeFieldOnNodeTypeRendersPlan(u, p);
    EmitAppends(p, RelationTypeFieldPlan(u, p));
  }

  lemma RelationTypeMutationPayloadFieldAppends(p: Params, rootVariableNames: RootVariableNames)
    ensures AppendsOneClause(p, RelationTypeMutationPayloadField(p, rootVariableNames))
  {
  }

  lemma DirectedFieldOnReflexiveRelationTypeAppends(u: Utils, p: Params)
    ensures AppendsOneClause(p, DirectedFieldOnReflexiveRelationType(u, p))
  {
    DirectedFieldOnReflexiveRelationTypeRendersPlan(u, p);
    EmitAppends(p, DirectedFieldPlan(u, p));
  }

  // ---------------------------------------------------------------------------
  // Cardinality.

  /** customCypherField wraps its comprehension in `head(`...`)` exactly when
      the field type has no `ofType`, and its `skipLimit` follows the closing
      parenthesis. */
  lemma CustomCypherFieldCardinality(u: Utils, p: Params)
    ensures CustomCypherField(u, p)
         == Emit(Lead(p) + HeadWrapped(!HasOfType(p.fieldType), Render(CustomCypherPlan(u, p, true))) + Trail(p),
                 p.tailParams)
  {
    CustomCypherFieldRendersPlan(u, p);
    CardinalityWraps(p, CustomCypherPlan(u, p, HasOfType(p.fieldType)));
  }

  lemma RelationFieldOnNodeTypeCardinality(u: Utils, p: Params)
    ensures RelationFieldOnNodeType(u, p)
         == Emit(Lead(p) + HeadWrapped(!u.isArrayType(p.fieldType), Render(NodeRelationPlan(ListTyped(u), p)))
                 + Trail(p), p.tailParams)
  {
    RelationFieldOnNodeTypeRendersPlan(u, p);
    CardinalityWraps(p, NodeRelationPlan(u, p));
  }

  lemma RelationTypeFieldOnNodeTypeCardinality(u: Utils, p: Params)
    requires p.innerSchemaTypeRelation.from != p.innerSchemaTypeRelation.to
    ensures RelationTypeFieldOnNodeType(u, p)
         == Emit(Lead(p) + HeadWrapped(!u.isArrayType(p.fieldType), Render(RelationTypeFieldPlan(ListTyped(u), p)))
                 + Trail(p), p.tailParams)
  {
    RelationTypeFieldOnNodeTypeRendersPlan(u, p);
    CardinalityWraps(p, RelationTypeFieldPlan(u, p));
  }

  lemma DirectedFieldCardinality(u: Utils, p: Params)
    requires p.schemaTypeRelation.from == p.schemaTypeRelation.to ==> p.fieldName == "from" || p.fieldName == "to"
    ensures DirectedFieldOnReflexiveRelationType(u, p)
         == Emit(Lead(p) + HeadWrapped(!u.isArrayType(p.fieldType), Render(DirectedFieldPlan(ListTyped(u), p)))
                 + Trail(p), p.tailParams)
  {
    DirectedFieldOnReflexiveRelationTypeRendersPlan(u, p);
    CardinalityWraps(p, DirectedFieldPlan(u, p));
  }

  // ---------------------------------------------------------------------------
  // Direction.

  /** relationFieldOnNodeType emits the undirected traversal with the in-arrow
      set exactly for `in`/`IN` and the out-arrow exactly for `out`/`OUT`; any
      other value (`In`, say) sets neither, and no value sets both. By
      TraversalClauseSplit and ArrowInsertion each arrow is then a single `<`
      or `>` inserted into the text of the undirected clause. */
  lemma DirectionArrows(u: Utils, p: Params)
    ensures !(IsIn(p.relDirection) && IsOut(p.relDirection))
    ensures var e0 := NodeRelationPlan(u, p.(relDirection := ""));
      && e0.Comprehension? && e0.source.Traversal?
      && !e0.source.path.inArrow && !e0.source.path.outArrow
      && RelationFieldOnNodeType(u, p)
         == Emit(Clause(p, e0.(source := Traversal(e0.source.path.(inArrow := IsIn(p.relDirection),
                                                                 outArrow := IsOut(p.relDirection))))),
                 p.tailParams)
  {
    RelationFieldOnNodeTypeRendersPlan(u, p);
    var e0 := NodeRelationPlan(u, p.(relDirection := ""));
    assert NodeRelationPlan(u, p)
        == e0.(source := Traversal(e0.source.path.(inArrow := IsIn(p.relDirection), outArrow := IsOut(p.relDirection))));
  }

  // ---------------------------------------------------------------------------
  // Inline fragments.

  /** Under an inline fragment relationFieldOnNodeType emits the plain
      traversal to a node labelled `interfaceLabel`, with the discriminator
      added to its projection. By ProjectionClauseSplit and
      DiscriminatorInsertion the clause is then the plain one with
      `FRAGMENT_TYPE: "<interfaceLabel>",` inserted right before
      `subSelection[0]`. */
  lemma RelationFieldInlineFragment(u: Utils, p: Params)
    requires p.isInlineFragment
    ensures var plain := p.(isInlineFragment := false, innerSchemaType := SchemaType(p.interfaceLabel));
      var e := NodeRelationPlan(u, plain);
      && e.Comprehension?
      && e.projection.discriminator == NoFragmentType
      && RelationFieldOnNodeType(u, p)
         == Emit(Clause(p, e.(projection := e.projection.(discriminator := FragmentType(p.interfaceLabel)))), p.tailParams)
  {
    RelationFieldOnNodeTypeRendersPlan(u, p);
    var e := NodeRelationPlan(u, p.(isInlineFragment := false, innerSchemaType := SchemaType(p.interfaceLabel)));
    assert NodeRelationPlan(u, p) == e.(projection := e.projection.(discriminator := FragmentType(p.interfaceLabel)));
  }

  /** Without an inline fragment the projection is exactly `subSelection[0]`
      and the related node carries its schema type name; with one, the
      projection opens with the discriminator. */
  lemma RelationFieldProjection(u: Utils, p: Params)
    ensures var e := NodeRelationPlan(u, p);
      && e.source.path.target.typeLabel == Label(if p.isInlineFragment then p.interfaceLabel else p.innerSchemaType.name)
      && ProjectionOnto("", e.projection)
         == p.nestedVariable + " {"
            + (if p.isInlineFragment then "FRAGMENT_TYPE: \"" + p.interfaceLabel + "\"," else "")
            + FirstSelection(p.subSelection) + "}"
  {
  }

  // ---------------------------------------------------------------------------
  // Dispatch and the mutation payload.

  /** nodeTypeFieldOnRelationType takes the mutation-payload rule exactly when
      root variable names are passed in, and otherwise the directed-field rule
      with the relationship, the inner type and the fragment context added. */
  lemma NodeTypeFieldDispatch(
    u: Utils, fieldInfo: Params, rootVariableNames: Option<RootVariableNames>,
    schemaTypeRelation: RelationDescriptor, innerSchemaType: SchemaType, isInlineFragment: bool, interfaceLabel: string)
    ensures var r := NodeTypeFieldOnRelationType(u, fieldInfo, rootVariableNames, schemaTypeRelation, innerSchemaType,
                                                 isInlineFragment, interfaceLabel);
      var q := fieldInfo.(schemaTypeRelation := schemaTypeRelation, innerSchemaType := innerSchemaType,
                          isInlineFragment := isInlineFragment, interfaceLabel := interfaceLabel);
      && AppendsOneClause(fieldInfo, r)
      && (rootVariableNames.Some? ==>
            r == Emit(Clause(fieldInfo, MutationPayloadPlan(fieldInfo)), fieldInfo.tailParams)
                   ["rootVariableNames" := Roots(rootVariableNames.value)]
                   ["variableName" := Str(if fieldInfo.fieldName == "from" then rootVariableNames.value.to
                                          else rootVariableNames.value.from)])
      && (rootVariableNames.None? ==> r == Emit(Clause(q, DirectedFieldPlan(u, q)), q.tailParams))
  {
    var q := fieldInfo.(schemaTypeRelation := schemaTypeRelation, innerSchemaType := innerSchemaType,
                        isInlineFragment := isInlineFragment, interfaceLabel := interfaceLabel);
    if rootVariableNames.Some? {
      RelationTypeMutationPayloadFieldRendersPlan(fieldInfo, rootVariableNames.value);
      ClauseKeepsPrefix(fieldInfo, MutationPayloadPlan(fieldInfo));
    } else {
      DirectedFieldOnReflexiveRelationTypeRendersPlan(u, q);
      ClauseKeepsPrefix(q, DirectedFieldPlan(u, q));
    }
  }

  /** The mutation-payload clause is the direct projection
      `variableName {subSelection[0]}`, with no traversal. */
  lemma MutationPayloadProjection(p: Params)
    ensures Render(MutationPayloadPlan(p)) == p.variableName + " {" + FirstSelection(p.subSelection) + "}"
  {
  }

  /** Successive payload fields hand the root variables over in turn: after the
      `from` field the next field reads the `to` variable, after any other field
      the `from` variable. The last conjunct is the mutation-payload projection
      of a sibling field whose caller passes it the handed-over `variableName`;
      passing it on is the caller's part, which is not modelled here. */
  lemma MutationPayloadHandOver(p: Params, rootVariableNames: RootVariableNames)
    ensures var next := RelationTypeMutationPayloadField(p, rootVariableNames)["variableName"].text;
      && (p.fieldName == "from" ==> next == rootVariableNames.to)
      && (p.fieldName != "from" ==> next == rootVariableNames.from)
      && Render(MutationPayloadPlan(p.(variableName := next)))
         == next + " {" + FirstSelection(p.subSelection) + "}"
  {
  }

  // ---------------------------------------------------------------------------
  // Endpoint fields of relationship types.

  /** On a reflexive relationship the `from` field walks into the current node
      (`<` next to it) and the `to` field out of it (`>` next to the related
      node), each binding and projecting `<variableName>_from_relation` or
      `<variableName>_to_relation`; the opposite arrow appears only when the
      endpoint type is itself named `from` or `to`, and a `to` field of a type
      named `to` counts as the `from` field for the variable too. The related
      node is unparameterised, labelled with the endpoint type (the interface
      label under an inline fragment), and an inline fragment opens the
      projection with its `FRAGMENT_TYPE` entry. Any other field name is the
      plain projection of the current variable. */
  lemma ReflexiveDirectedFields(u: Utils, p: Params)
    requires p.schemaTypeRelation.from == p.schemaTypeRelation.to
    ensures var e := DirectedFieldPlan(u, p);
      var rel := p.schemaTypeRelation;
      && ((p.fieldName == "from" || p.fieldName == "to") ==>
            && e.Comprehension? && e.source.Traversal?
            && e.singular == !u.isArrayType(p.fieldType)
            && e.source.path.source == Element(p.variableName, NoLabel, "")
            && e.source.path.target
               == Element(p.nestedVariable, Label(if p.isInlineFragment then p.interfaceLabel else rel.from), "")
            && e.projection.discriminator == (if p.isInlineFragment then FragmentType(p.interfaceLabel) else NoFragmentType)
            && e.projection.body == FirstSelection(p.subSelection)
            && e.projection.variable == e.source.path.rel.variable)
      && (p.fieldName == "from" ==>
            && e.source.path.inArrow
            && e.source.path.outArrow == (rel.to == "from")
            && e.source.path.rel == Element(p.variableName + "_from_relation", Label(rel.name), p.queryParams))
      && (p.fieldName == "to" ==>
            && e.source.path.inArrow == (rel.from == "to")
            && e.source.path.outArrow
            && (rel.from != "to" ==>
                  e.source.path.rel == Element(p.variableName + "_to_relation", Label(rel.name), p.queryParams))
            && (rel.from == "to" ==>
                  e.source.path.rel == Element(p.variableName + "_from_relation", Label(rel.name), p.queryParams)))
      && (p.fieldName != "from" && p.fieldName != "to" ==>
            Render(e) == p.variableName + " {" + FirstSelection(p.subSelection) + "}")
  {
    var v := p.variableName;
    assert v + "_" + "from" + "_relation" == v + "_from_relation";
    assert v + "_" + "to" + "_relation" == v + "_to_relation";
    if p.fieldName != "from" && p.fieldName != "to" {
      MutationPayloadProjection(p);
    }
  }

  /** Between two distinct node types an endpoint field walks from the opposite
      endpoint type (an unbound `(:Label)` node) along the relationship bound to
      `<variableName>_relation`. A field counts as the `from` side when it is
      named after the `from` type or is literally `from`, and as the `to` side
      when named after the `to` type or literally `to`: the `from` side arrives
      by `<` from the `to` type, the `to` side leaves by `>` from the `from`
      type, a field on both sides gets both arrows and starts from the `to`
      type, and a field on neither gets no arrow and starts from the `from`
      type. The related node is bound to `nestedVariable`, labelled with the
      field's type (the interface label under an inline fragment) and carries
      the query parameters; an inline fragment opens the projection with its
      `FRAGMENT_TYPE` entry. */
  lemma EndpointTraversal(u: Utils, p: Params)
    requires p.schemaTypeRelation.from != p.schemaTypeRelation.to
    ensures var e := DirectedFieldPlan(u, p);
      var rel := p.schemaTypeRelation;
      var fromSide := p.fieldName == rel.from || p.fieldName == "from";
      var toSide := p.fieldName == rel.to || p.fieldName == "to";
      && e.Comprehension? && e.source.Traversal?
      && e.singular == !u.isArrayType(p.fieldType)
      && e.source.path.rel == Element(p.variableName + "_relation", NoLabel, "")
      && e.source.path.source.variable == "" && e.source.path.source.params == ""
      && e.source.path.target
         == Element(p.nestedVariable, Label(if p.isInlineFragment then p.interfaceLabel else p.innerSchemaType.name),
                    p.queryParams)
      && e.projection
         == Projection(p.nestedVariable, if p.isInlineFragment then FragmentType(p.interfaceLabel) else NoFragmentType,
                       FirstSelection(p.subSelection))
      && (fromSide && !toSide ==>
            e.source.path.source.typeLabel == Label(rel.to) && e.source.path.inArrow && !e.source.path.outArrow)
      && (toSide && !fromSide ==>
            e.source.path.source.typeLabel == Label(rel.from) && !e.source.path.inArrow && e.source.path.outArrow)
      && (fromSide && toSide ==>
            e.source.path.source.typeLabel == Label(rel.to) && e.source.path.inArrow && e.source.path.outArrow)
      && (!fromSide && !toSide ==>
            e.source.path.source.typeLabel == Label(rel.from) && !e.source.path.inArrow && !e.source.path.outArrow)
  {
  }

  /** Under an inline fragment an endpoint field between distinct types
      traverses as the same field without the fragment whose type is the
      interface, and its projection only gains the `FRAGMENT_TYPE` entry. */
  lemma DirectedFieldInlineFragment(u: Utils, p: Params)
    requires p.schemaTypeRelation.from != p.schemaTypeRelation.to
    requires p.isInlineFragment
    ensures var plain := p.(isInlineFragment := false, innerSchemaType := SchemaType(p.interfaceLabel));
      var e := DirectedFieldPlan(u, plain);
      && e.Comprehension?
      && e.projection.discriminator == NoFragmentType
      && DirectedFieldOnReflexiveRelationType(u, p)
         == Emit(Clause(p, e.(projection := e.projection.(discriminator := FragmentType(p.interfaceLabel)))), p.tailParams)
  {
    DirectedFieldOnReflexiveRelationTypeRendersPlan(u, p);
    var e := DirectedFieldPlan(u, p.(isInlineFragment := false, innerSchemaType := SchemaType(p.interfaceLabel)));
    assert DirectedFieldPlan(u, p) == e.(projection := e.projection.(discriminator := FragmentType(p.interfaceLabel)));
  }

  /** relationTypeFieldOnNodeType: a reflexive relationship yields the bare map
      `{subSelection[0]}`; otherwise the traversal leaves the current node by
      `>` when it is the `from` type and arrives by `<` when it is the `to`
      type, toward an unbound node of the opposite endpoint type. */
  lemma RelationTypeFieldEndpoints(u: Utils, p: Params)
    ensures var e := RelationTypeFieldPlan(u, p);
      var rel := p.innerSchemaTypeRelation;
      var here := p.schemaType.name;
      && (rel.from == rel.to ==> Render(e) == "{" + FirstSelection(p.subSelection) + "}")
      && (rel.from != rel.to ==>
            && e.Comprehension? && e.source.Traversal?
            && e.source.path.rel.variable == p.nestedVariable + "_relation"
            && e.projection.variable == p.nestedVariable + "_relation"
            && (here == rel.from ==>
                  e.source.path.outArrow && !e.source.path.inArrow && e.source.path.target.typeLabel == Label(rel.to))
            && (here == rel.to ==>
                  e.source.path.inArrow && !e.source.path.outArrow && e.source.path.target.typeLabel == Label(rel.from))
            && (here != rel.from && here != rel.to ==>
                  !e.source.path.inArrow && !e.source.path.outArrow && e.source.path.target.typeLabel == Label(rel.from)))
  {
  }

  // ---------------------------------------------------------------------------
  // customCypherField's list test.

  /** As written, customCypherField treats a non-null named type `T!` as a list
      because the non-null wrapper has an `ofType`: the comprehension is emitted
      unwrapped whatever `isArrayType` says, unlike every other rule. */
  lemma CustomCypherNonNullIsList(u: Utils, p: Params, name: string)
    requires p.fieldType == NonNullType(NamedType(name))
    requires !u.isArrayType(p.fieldType)
    requires "initial" !in p.tailParams
    ensures CustomCypherField(u, p) == Emit(Lead(p) + Render(CustomCypherPlan(u, p, true)) + Trail(p), p.tailParams)
    ensures CustomCypherField(u, p)["initial"] != CustomCypherFieldCorrected(u, p)["initial"]
  {
    CustomCypherFieldCardinality(u, p);
    CustomCypherFieldCorrectedCardinality(u, p);
  }

  /** The corrected rule wraps exactly when `isArrayType` says the field is not
      a list, as the other rules do. */
  lemma CustomCypherFieldCorrectedCardinality(u: Utils, p: Params)
    ensures CustomCypherFieldCorrected(u, p)
         == Emit(Lead(p) + HeadWrapped(!u.isArrayType(p.fieldType), Render(CustomCypherPlan(u, p, true))) + Trail(p),
                 p.tailParams)
  {
    CustomCypherFieldCorrectedRendersPlan(u, p);
    CardinalityWraps(p, CustomCypherPlan(u, p, u.isArrayType(p.fieldType)));
  }
}
