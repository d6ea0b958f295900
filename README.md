# Cypher projection fragments of neo4j-graphql-js

`src/translate.js` compiles one field of a GraphQL selection into one clause
of a Cypher map projection. Each rule takes the projection text built so far
(`initial`) and appends `fieldName: <expression>`, followed by the pagination
text (`skipLimit`) and the separator (`commaIfTail`). It returns that text as
`initial` in an object that also carries the caller's `tailParams`. There are
six rules:

- `customCypherField` splices a `@cypher` subquery into a list comprehension.
- `relationFieldOnNodeType` traverses a relationship from a node to a related node type.
- `relationTypeFieldOnNodeType` projects a relationship type from a node.
- `nodeTypeFieldOnRelationType` dispatches an endpoint field of a relationship type. It goes either to:
  - `relationTypeMutationPayloadField`, for relationship-mutation payloads, which threads a pair of root variables through sibling fields; or
  - `directedFieldOnReflexiveRelationType`, which covers reflexive and general endpoint traversals.

The project has three modules.

- `Cypher` (`cypher.dfy`) is the emitted fragment of Cypher as a small syntax tree:
  - path patterns with optional arrow heads;
  - list comprehensions, optionally wrapped in `head(...)`;
  - map projections, optionally opened by the `FRAGMENT_TYPE` entry of an inline fragment (a `FragmentType`, kept apart from a pattern's `Label`).

  It has one serializer, `RenderOnto`, which appends an expression's text to an accumulator. Lemmas state what the text of each construct is: appending, the `head(...)` wrap, arrow heads and the discriminator as single insertions.
- `Translate` (`translate.dfy`) holds the six rules. Each is written as the same template-literal concatenation the source performs and returns a map from property names to values. The object spread `...tailParams` is a map union in which later entries win.

  Each rule carries its thread-through contract. A lemma per rule proves that its text is exactly the rendering of a structured *plan* (an `Expr` value built from the parameters).
- `TranslateProperties` (`properties.dfy`) states, over those plans and texts, what the rules promise: append-only output, cardinality, direction, inline-fragment discriminators, dispatch, root-variable hand-over, endpoint traversals, and the list test of `customCypherField`.

The helpers imported from `./utils` are `isArrayType`, `getReturnVal`, `removeMatch` and `removeReturn`. Their code is not part of this model. They are fields of a `Utils` value of arbitrary total functions, so every result holds whatever they compute.

Where the code and the documented intent of the system differ, the model follows the code:

- Direction is recognised only for the exact strings `in`, `IN`, `out` and `OUT`, not case-insensitively (`In` gives an undirected pattern).
- On a reflexive relationship the `from` field puts `<` next to the current variable (it walks into it), and the `to` field puts `>` next to the related node.

## Model

| member | source | states |
|---|---|---|
| Cypher.RenderAppends | src/translate.js:39-46 | Rendering an expression onto any accumulated text only appends the expression's own text: the prefix is never rewritten. |
| Cypher.SingularWrapsList | src/translate.js:67-79 | A singular comprehension is exactly the list comprehension wrapped in `head(` and `)`, whatever it traverses and projects. |
| Cypher.ArrowInsertion | src/translate.js:69-73 | In a path pattern, the in-arrow is one `<` inserted right after `(source)` and the out-arrow one `>` inserted right before `(target)`; the undirected pattern is otherwise unchanged and its length is fixed by its three elements. |
| Cypher.DiscriminatorInsertion | src/translate.js:75-78 | The inline-fragment discriminator is one `FRAGMENT_TYPE: "<label>",` entry inserted at the front of the projected map body; nothing else changes. |
| Translate.Emit | src/translate.js:39-46 | The object `{initial, ...tailParams}` has exactly the keys `initial` plus those of `tailParams`, keeps every `tailParams` value, and holds the new text under `initial` unless `tailParams` overrides it. |
| Translate.CustomCypherField | src/translate.js:9-47 | The returned object holds `initial` and every `tailParams` entry with its original value. |
| Translate.RelationFieldOnNodeType | src/translate.js:49-82 | The returned object holds `initial` and every `tailParams` entry with its original value. |
| Translate.RelationTypeFieldOnNodeType | src/translate.js:84-124 | The returned object holds `initial` and every `tailParams` entry with its original value, on both the reflexive and the traversal branch. |
| Translate.RelationTypeMutationPayloadField | src/translate.js:153-172 | The result's keys are `initial`, `rootVariableNames` and `variableName` plus those of `tailParams`. Both named entries override `tailParams`: `rootVariableNames` is the pair passed in, and `variableName` is its `to` variable after the `from` field and its `from` variable otherwise. Every other `tailParams` entry is kept. |
| Translate.DirectedFieldOnReflexiveRelationType | src/translate.js:174-243 | The returned object holds `initial` and every `tailParams` entry with its original value, on all three branches. |
| Translate.NodeTypeFieldOnRelationType | src/translate.js:126-151 | With root variable names, the result carries the pair and the handed-over `variableName`. Without them, it threads `fieldInfo`'s `tailParams` through. |
| Translate.CustomCypherFieldRendersPlan | src/translate.js:30-46 | customCypherField's text is the clause rendering a comprehension over the subquery with its MATCH and RETURN removed, projecting the returned variable with `subSelection[0]`; it is singular exactly when `fieldType` has no `ofType`. |
| Translate.RelationFieldOnNodeTypeRendersPlan | src/translate.js:66-81 | relationFieldOnNodeType's text is the clause rendering its traversal plan. The plan is `(variableName)` to `(nestedVariable:label queryParams)` over `[:relType]`. It projects `nestedVariable`, is singular when `isArrayType` is false, and carries the discriminator under an inline fragment. |
| Translate.RelationTypeFieldOnNodeTypeRendersPlan | src/translate.js:98-123 | relationTypeFieldOnNodeType's text is the clause rendering its plan. A reflexive relationship gives the map literal `{subSelection[0]}`. Otherwise the plan traverses from `(variableName)` over `[nestedVariable_relation:name queryParams]` to the unbound opposite endpoint, and projects the relationship variable. |
| Translate.RelationTypeMutationPayloadFieldRendersPlan | src/translate.js:163-171 | The payload field's object is the emitted clause `variableName {subSelection[0]}` with the two root-variable entries set on top of `tailParams`. |
| Translate.DirectedFieldOnReflexiveRelationTypeRendersPlan | src/translate.js:190-242 | directedFieldOnReflexiveRelationType's text is the clause rendering its plan, on every branch. |
| Translate.ReflexiveTraversalRendersPlan | src/translate.js:200-217 | On a reflexive relationship, the `from`/`to` field's text renders the traversal from `(variableName)` over `[<var>_<from/to>_relation:name queryParams]` to `(nestedVariable:label)`, projecting the relationship variable. |
| Translate.EndpointTraversalRendersPlan | src/translate.js:228-242 | Between distinct types, the field's text renders the traversal from the unbound opposite endpoint over `[variableName_relation]` to `(nestedVariable:label queryParams)`, projecting `nestedVariable`. |
| TranslateProperties.ClauseAppends | src/translate.js:40-44 | A clause is the incoming `initial`, then `fieldName: `, then the rendered expression, then `skipLimit commaIfTail`. |
| TranslateProperties.TraversalClauseSplit | src/translate.js:67-79 | A traversal clause is the rendered path followed by text that does not depend on the path, so changing the path's arrows changes only the path's text. |
| TranslateProperties.ProjectionClauseSplit | src/translate.js:73-79 | A comprehension clause is its rendered projection followed by text that does not depend on the projection. |
| TranslateProperties.CustomCypherFieldAppends | src/translate.js:39-46 | customCypherField's `initial` starts with the incoming `initial` and `fieldName: ` and ends with `skipLimit commaIfTail`, unless `tailParams` itself has an `initial` entry. |
| TranslateProperties.RelationFieldOnNodeTypeAppends | src/translate.js:66-81 | The same append-only property for relationFieldOnNodeType. |
| TranslateProperties.RelationTypeFieldOnNodeTypeAppends | src/translate.js:99-123 | The same append-only property for relationTypeFieldOnNodeType, on both branches. |
| TranslateProperties.RelationTypeMutationPayloadFieldAppends | src/translate.js:163-171 | The same append-only property for the mutation-payload field. |
| TranslateProperties.DirectedFieldOnReflexiveRelationTypeAppends | src/translate.js:200-242 | The same append-only property for directedFieldOnReflexiveRelationType, on all three branches. |
| TranslateProperties.CustomCypherFieldCardinality | src/translate.js:37-44 | customCypherField wraps its comprehension in `head(`…`)` exactly when `fieldType` has no `ofType`; the text is otherwise the list form, and `skipLimit` follows the closing parenthesis. |
| TranslateProperties.RelationFieldOnNodeTypeCardinality | src/translate.js:67-79 | relationFieldOnNodeType wraps exactly when `isArrayType(fieldType)` is false; the wrapped text is otherwise the list comprehension. |
| TranslateProperties.RelationTypeFieldOnNodeTypeCardinality | src/translate.js:107-121 | The same cardinality property for a non-reflexive relationTypeFieldOnNodeType. |
| TranslateProperties.DirectedFieldCardinality | src/translate.js:200-242 | The same cardinality property for the directed traversals, both reflexive `from`/`to` and general. |
| TranslateProperties.DirectionArrows | src/translate.js:69-73 | relationFieldOnNodeType renders the undirected traversal with the in-arrow set exactly for `in`/`IN` and the out-arrow exactly for `out`/`OUT`. No value sets both, and any other value (`In`) sets neither. |
| TranslateProperties.RelationFieldInlineFragment | src/translate.js:73-78 | Under an inline fragment, relationFieldOnNodeType renders the plain traversal to a node labelled `interfaceLabel`, with the discriminator added to the projection. |
| TranslateProperties.RelationFieldProjection | src/translate.js:73-78 | The related node is labelled `interfaceLabel` under an inline fragment and the inner type name otherwise; the projection is `nestedVariable {` + optional `FRAGMENT_TYPE: "<label>",` + `subSelection[0]}`. |
| TranslateProperties.NodeTypeFieldDispatch | src/translate.js:134-150 | nodeTypeFieldOnRelationType is the mutation-payload rule (clause plus the two overrides) exactly when root variable names are given. Otherwise it is the directed-field rule applied to `fieldInfo` with the relationship, inner type and fragment context set. Either way it appends one clause. |
| TranslateProperties.MutationPayloadProjection | src/translate.js:164-166 | The payload clause is exactly `variableName {subSelection[0]}`, with no traversal. |
| TranslateProperties.MutationPayloadHandOver | src/translate.js:167-170 | After a payload field, the returned `variableName` is the `to` root after `from` and the `from` root otherwise; a sibling field that its caller hands this `variableName` projects that variable. |
| TranslateProperties.ReflexiveDirectedFields | src/translate.js:193-226 | On a reflexive relationship: `from` walks into the current variable (`<`) binding `<var>_from_relation`; `to` walks out (`>`) binding `<var>_to_relation`. The opposite arrow appears only when the type itself is named `to`/`from`, and a `to` field of a type named `to` binds `<var>_from_relation`. Both project the relationship variable, open with `FRAGMENT_TYPE` under an inline fragment, and end at an unparameterised `(nestedVariable:label)` labelled with the endpoint type or, under an inline fragment, `interfaceLabel`. Any other field name is the bare projection `variableName {subSelection[0]}`. |
| TranslateProperties.EndpointTraversal | src/translate.js:228-242 | Between distinct types, the traversal is anchored at an unbound node of the opposite endpoint type and goes through `variableName_relation`. A field named after the `from` type or literally `from` arrives by `<` from the `to` type; one named after the `to` type or literally `to` leaves by `>` from the `from` type; a field that is both gets both arrows from the `to` type; any other name gets no arrow and starts at the `from` type. The target is `(nestedVariable:label queryParams)` with the field's type or `interfaceLabel` as label, and the projection of `nestedVariable` opens with `FRAGMENT_TYPE` exactly under an inline fragment. |
| TranslateProperties.DirectedFieldInlineFragment | src/translate.js:233-239 | Under an inline fragment, an endpoint field between distinct types renders the plain traversal to a node labelled `interfaceLabel`, with the `FRAGMENT_TYPE` entry added to the projection. |
| TranslateProperties.RelationTypeFieldEndpoints | src/translate.js:98-123 | relationTypeFieldOnNodeType yields `{subSelection[0]}` for a reflexive relationship. Otherwise the traversal leaves the current node by `>` when it is the `from` type and arrives by `<` when it is the `to` type, toward the opposite endpoint type (no arrow if neither). |
| TranslateProperties.CustomCypherNonNullIsList | src/translate.js:37-44 | For a non-null named field type that `isArrayType` calls singular, customCypherField as written emits the unwrapped list comprehension, and its text differs from the corrected rule's. |
| TranslateProperties.CustomCypherFieldCorrectedCardinality | src/translate.js:37-44 | The corrected customCypherField wraps in `head(`…`)` exactly when `isArrayType(fieldType)` is false, as every other rule does. |
| Translate.CustomCypherFieldCorrected | src/translate.js:9-47 | The corrected customCypherField threads `initial` and every `tailParams` entry through unchanged. |
| Translate.CustomCypherFieldCorrectedRendersPlan | src/translate.js:37-44 | The corrected customCypherField's text is the clause rendering the subquery comprehension of `customCypher` passed through `removeMatch` and `removeReturn`, projecting the variable `getReturnVal` names, singular exactly when `isArrayType(fieldType)` is false. |

## Left out

- The code of the `./utils` helpers (`isArrayType`, `getReturnVal`, `removeMatch`, `removeReturn`; `cypherDirectiveArgs` is imported but unused) is not part of this model. They are arbitrary total functions, so every property holds for any behaviour of theirs.
- customCypherField rebinds `variableName` to `<variableName>_relation` when `schemaTypeRelation` is set. The rebound value is never read afterwards, so it has no effect on the result and is not modelled.
- Parameters that a rule destructures but never reads are not modelled (`nestedVariable`, `headSelection`, `schemaType` and `resolveInfo` of customCypherField; `fieldType`, `schemaType`, `nestedVariable` and `queryParams` where unused).
- JavaScript's dynamic typing is not modelled. Every parameter is taken to be present with the type the rule reads. A missing `innerSchemaType`, `innerSchemaTypeRelation`, `schemaTypeRelation` or `fieldType` would throw a TypeError, and interpolating a non-string value would call its `toString`. Text-valued parameters hold the text they interpolate to; an empty `subSelection` interpolates as `undefined`, which is modelled.
- The truthiness of `rootVariableNames` is modelled as present (`Some`) or absent (`None`); other falsy values (`0`, `""`) are not distinguished.
- Whether the emitted text is valid Cypher, and what it computes when run against a graph store, are not modelled.
- TranslateProperties.DirectionArrows: states the arrows on the rendered traversal, not as positions in the returned text. TraversalClauseSplit and ArrowInsertion together give the text as the undirected clause with one `<` or `>` inserted.
- TranslateProperties.RelationFieldInlineFragment: likewise states the discriminator on the rendered projection. ProjectionClauseSplit and DiscriminatorInsertion together give it as one inserted entry of the text.
- TranslateProperties.DirectedFieldInlineFragment: likewise states the discriminator on the rendered projection, not as an inserted entry of the text.

## Findings

| source | as written | input that shows it | evidently intended | confidence | as-written member | corrected member |
|---|---|---|---|---|---|---|
| src/translate.js:37 | customCypherField decides list-ness with `!!fieldType.ofType`, which is true for every wrapper type, including a non-null singular type `T!` | a `@cypher` field of type `Movie!` (a `NonNullType(NamedType("Movie"))` for which `isArrayType` is false) | wrap the comprehension in `head(...)` whenever the field is not a list, as the other rules do with `isArrayType` | not executed; medium (the code of `isArrayType` is not part of this model) | TranslateProperties.CustomCypherNonNullIsList | Translate.CustomCypherFieldCorrected |
