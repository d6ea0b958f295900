/** The fragment of Cypher syntax the projection rules emit, as a small tree with
    one serializer. The serializer works the way the rules do: it appends the
    text of an expression to an accumulated prefix, left to right. The
    translation rules build their text by plain concatenation; this tree is the
    independent description each rule is proved to agree with. */
module Cypher {

  /** A `:Label` part of a pattern. */
  datatype Label = NoLabel | Label(name: string)

  /** The `FRAGMENT_TYPE` entry a projection may open with: the concrete type
      named by an inline fragment, or none. */
  datatype FragmentType = NoFragmentType | FragmentType(typeName: string)

  /** The inside of a node pattern `(...)` or of a relationship pattern `[...]`:
      a variable (possibly empty), an optional `:Label` and trailing parameter text. */
  datatype Element = Element(variable: string, typeLabel: Label, params: string)

  /** A one-hop path `(source)<-[rel]->(target)`, each arrow head present or not. */
  datatype Path = Path(source: Element, inArrow: bool, rel: Element, outArrow: bool, target: Element)

  /** What a list comprehension iterates over: a path pattern, or a spliced
      Cypher subquery. */
  datatype Source = Traversal(path: Path) | Subquery(cypher: string)

  /** A map projection `variable {body}`, optionally opened by the
      `FRAGMENT_TYPE` entry that names the concrete type of an inline fragment. */
  datatype Projection = Projection(variable: string, discriminator: FragmentType, body: string)

  datatype Expr =
    | Comprehension(singular: bool, source: Source, projection: Projection)  // [source | projection], inside head(...) when singular
    | Projected(projection: Projection)                                      // variable {body}
    | MapLiteral(body: string)                                               // {body}

  function ElementOnto(acc: string, x: Element): string {
    if x.typeLabel.Label? then acc + x.variable + ":" + x.typeLabel.name + x.params
    else acc + x.variable + x.params
  }

  function InArrowText(present: bool): string { if present then "<" else "" }

  function OutArrowText(present: bool): string { if present then ">" else "" }

  function PathOnto(acc: string, p: Path): string {
    var afterSource := ElementOnto(acc + "(", p.source) + ")" + InArrowText(p.inArrow) + "-[";
    var afterRel := ElementOnto(afterSource, p.rel) + "]-" + OutArrowText(p.outArrow) + "(";
    ElementOnto(afterRel, p.target) + ")"
  }

  function SourceOnto(acc: string, s: Source): string {
    match s
    case Traversal(p) => PathOnto(acc, p)
    case Subquery(c) => acc + " " + c
  }

  /** The synthetic first entry naming the concrete type of an inline fragment. */
  function DiscriminatorText(d: FragmentType): string {
    if d.FragmentType? then "FRAGMENT_TYPE: \"" + d.typeName + "\"," else ""
  }

  function ProjectionOnto(acc: string, pr: Projection): string {
    acc + pr.variable + " {" + DiscriminatorText(pr.discriminator) + pr.body + "}"
  }

  function HeadOpen(singular: bool): string { if singular then "head(" else "" }

  function HeadClose(singular: bool): string { if singular then ")" else "" }

  /** `acc` followed by the text of `e`. */
  function RenderOnto(acc: string, e: Expr): string {
    match e
    case Comprehension(singular, source, projection) =>
      ProjectionOnto(SourceOnto(acc + HeadOpen(singular) + "[", source) + " | ", projection) + "]" + HeadClose(singular)
    case Projected(projection) => ProjectionOnto(acc, projection)
    case MapLiteral(body) => acc + "{" + body + "}"
  }

  /** The text of `e` on its own. */
  function Render(e: Expr): string {
    RenderOnto("", e)
  }

  function ElementText(x: Element): string { ElementOnto("", x) }

  function PathText(p: Path): string { PathOnto("", p) }

  /** `s` with `t` inserted before position `i`. */
  function Insert(s: string, i: nat, t: string): (r: string)
    requires i <= |s|
    ensures |r| == |s| + |t|
    ensures r[..i] == s[..i] && r[i + |t|..] == s[i..]
  {
    s[..i] + t + s[i..]
  }

  // ---------------------------------------------------------------------------
  // Rendering only appends: the accumulated prefix is never rewritten.

  lemma ElementAppends(acc: string, x: Element)
    ensures ElementOnto(acc, x) == acc + ElementText(x)
  {
  }

  /** A path is its three elements between the fixed punctuation. */
  lemma PathSpelling(acc: string, p: Path)
    ensures PathOnto(acc, p)
         == acc + "(" + ElementText(p.source) + ")" + InArrowText(p.inArrow) + "-[" + ElementText(p.rel) + "]-"
            + OutArrowText(p.outArrow) + "(" + ElementText(p.target) + ")"
  {
    var s, r := ElementText(p.source), ElementText(p.rel);
    var ia, oa := InArrowText(p.inArrow), OutArrowText(p.outArrow);
    ElementAppends(acc + "(", p.source);
    ElementAppends(acc + "(" + s + ")" + ia + "-[", p.rel);
    ElementAppends(acc + "(" + s + ")" + ia + "-[" + r + "]-" + oa + "(", p.target);
  }

  lemma PathAppends(acc: string, p: Path)
    ensures PathOnto(acc, p) == acc + PathText(p)
  {
    var s, r, t := ElementText(p.source), ElementText(p.rel), ElementText(p.target);
    var ia, oa := InArrowText(p.inArrow), OutArrowText(p.outArrow);
    PathSpelling(acc, p);
    PathSpelling("", p);
    assert "" + "(" == "(";
    AppendsRegroup(acc, s, ia, r, oa, t);
  }

  lemma AppendsRegroup(acc: string, s: string, ia: string, r: string, oa: string, t: string)
    ensures acc + "(" + s + ")" + ia + "-[" + r + "]-" + oa + "(" + t + ")"
         == acc + ("(" + s + ")" + ia + "-[" + r + "]-" + oa + "(" + t + ")")
  {
  }

  lemma SourceAppends(acc: string, s: Source)
    ensures SourceOnto(acc, s) == acc + SourceOnto("", s)
  {
    match s
    case Traversal(p) => PathAppends(acc, p);
    case Subquery(c) => assert "" + " " == " ";
  }

  lemma ProjectionAppends(acc: string, pr: Projection)
    ensures ProjectionOnto(acc, pr) == acc + ProjectionOnto("", pr)
  {
  }

  /** The text of an expression is appended to the accumulator, whatever the
      accumulator holds. */
  lemma RenderAppends(acc: string, e: Expr)
    ensures RenderOnto(acc, e) == acc + Render(e)
  {
    match e
    case Comprehension(singular, source, projection) =>
      var h, c := HeadOpen(singular), HeadClose(singular);
      var st := SourceOnto("", source);
      var pt := ProjectionOnto("", projection);
      SourceAppends(acc + h + "[", source);
      SourceAppends("" + h + "[", source);
      ProjectionAppends(acc + h + "[" + st + " | ", projection);
      ProjectionAppends("" + h + "[" + st + " | ", projection);
      assert "" + h == h;
      ComprehensionRegroup(acc, h, st, pt, c);
    case Projected(projection) =>
      ProjectionAppends(acc, projection);
    case MapLiteral(body) =>
      assert "" + "{" == "{";
  }

  lemma ComprehensionRegroup(acc: string, h: string, st: string, pt: string, c: string)
    ensures acc + h + "[" + st + " | " + pt + "]" + c == acc + (h + "[" + st + " | " + pt + "]" + c)
  {
  }

  // ---------------------------------------------------------------------------
  // Properties of the text.

  /** Cardinality only wraps: a singular comprehension is the list comprehension
      inside `head(` ... `)`, whatever it traverses and projects. */
  lemma SingularWrapsList(source: Source, projection: Projection)
    ensures Render(Comprehension(true, source, projection))
         == "head(" + Render(Comprehension(false, source, projection)) + ")"
  {
    var st := SourceOnto("", source);
    var pt := ProjectionOnto("", projection);
    SourceAppends("" + "head(" + "[", source);
    SourceAppends("" + "" + "[", source);
    ProjectionAppends("" + "head(" + "[" + st + " | ", projection);
    ProjectionAppends("" + "" + "[" + st + " | ", projection);
    assert "" + "head(" == "head(";
    assert "" + "" + "[" == "[";
    WrapRegroup(st, pt);
  }

  lemma WrapRegroup(st: string, pt: string)
    ensures "head(" + "[" + st + " | " + pt + "]" + ")" == "head(" + ("[" + st + " | " + pt + "]" + "") + ")"
  {
  }

  /** Direction symmetry: the in-arrow is one `<` inserted right after the
      source pattern of the undirected path, the out-arrow one `>` inserted
      right before its target pattern; nothing else of the text changes. */
  lemma {:induction false} ArrowInsertion(acc: string, p: Path)
    requires !p.inArrow && !p.outArrow
    ensures |PathOnto(acc, p)| == |acc| + |ElementText(p.source)| + |ElementText(p.rel)| + |ElementText(p.target)| + 8
    ensures PathOnto(acc, p.(inArrow := true))
         == Insert(PathOnto(acc, p), |acc| + |ElementText(p.source)| + 2, "<")
    ensures PathOnto(acc, p.(outArrow := true))
         == Insert(PathOnto(acc, p), |acc| + |ElementText(p.source)| + |ElementText(p.rel)| + 6, ">")
  {
    var s, r, t := ElementText(p.source), ElementText(p.rel), ElementText(p.target);
    PathSpelling(acc, p);
    PathSpelling(acc, p.(inArrow := true));
    PathSpelling(acc, p.(outArrow := true));
    var head := acc + "(" + s + ")";
    InSlot(head, r, t);
    OutSlot(head, r, t);
    InsertAt(head, "<", "-[" + r + "]-" + "(" + t + ")");
    InsertAt(head + "-[" + r + "]-", ">", "(" + t + ")");
  }

  /** The undirected path and the path with `<`, split at the in-arrow slot. */
  lemma InSlot(head: string, r: string, t: string)
    ensures head + "" + "-[" + r + "]-" + "" + "(" + t + ")" == head + ("-[" + r + "]-" + "(" + t + ")")
    ensures head + "<" + "-[" + r + "]-" + "" + "(" + t + ")" == head + "<" + ("-[" + r + "]-" + "(" + t + ")")
  {
  }

  /** The undirected path and the path with `>`, split at the out-arrow slot. */
  lemma OutSlot(head: string, r: string, t: string)
    ensures head + "" + "-[" + r + "]-" + "" + "(" + t + ")" == head + "-[" + r + "]-" + ("(" + t + ")")
    ensures head + "" + "-[" + r + "]-" + ">" + "(" + t + ")" == head + "-[" + r + "]-" + ">" + ("(" + t + ")")
  {
  }

  lemma InsertAt(a: string, t: string, b: string)
    ensures a + t + b == Insert(a + b, |a|, t)
  {
  }

  /** The inline-fragment discriminator is exactly one entry inserted at the
      front of the projected map; the rest of the projection is unchanged. */
  lemma DiscriminatorInsertion(acc: string, pr: Projection, name: string)
    requires pr.discriminator == NoFragmentType
    ensures ProjectionOnto(acc, pr.(discriminator := FragmentType(name)))
         == Insert(ProjectionOnto(acc, pr), |acc| + |pr.variable| + 2, DiscriminatorText(FragmentType(name)))
  {
  }
}
