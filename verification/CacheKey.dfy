/** The execution cache key of a graph kernel and what two equal keys say about two calls. */
module CacheKey {
  import opened KeyText

  datatype DType = Float32 | Float16 | BFloat16 | Int8 | Int32 | Float8
  type Number = nat    // an enum printed as its integer

  datatype Value = Value(symbol: string, dtype: Number, kind: Number, hint: Number, escape: Number,
    shape: seq<int>, strides: seq<int>, isParameter: bool, isOutput: bool, isDevice: bool)
  datatype Operand = Operand(id: nat, transposed: bool)

  /** F is how floating-point fields are held: as numbers in a kernel, as their printed text in a key. */
  datatype Attrs<F> =
    | MatMul(lhs: Operand, rhs: Operand, acc: Number, splitK: bool)
    | Elementwise(kind: Number, inputs: seq<int>, immediates: seq<F>, inplace: bool)
    | Transpose(input: nat)
    | Cast(input: nat, to: Number)
    | Reduce(kind: Number, input: nat, along: Number, keepdim: bool)
    | Softmax(input: nat, axis: int, stable: bool, causal: bool)
    | Store(input: nat, output: nat)

  datatype Node<F> = Node(id: nat, kind: Number, inputs: seq<int>, outputs: seq<int>, sideEffectFree: bool, attrs: Attrs<F>)
  datatype Graph<F> = Graph(values: seq<Value>, inputs: seq<int>, outputs: seq<int>, topo: seq<int>, nodes: seq<Node<F>>)
  datatype Quantization<F> = Off | On(scale: F, zero: int)
  datatype View<F> = View(symbol: string, dtype: DType, shape: seq<int>, isDevice: bool, quant: Quantization<F>)

  datatype Call<F> = Call(name: string, target: string, graphMode: bool, graph: Graph<F>, quant: Quantization<F>,
    tensors: seq<View<F>>)

  /** Everything a key depends on besides the call: how a float prints, and the CPU tag of a target. */
  datatype Host = Host(text: real -> string, tag: string -> seq<string>)
  {
    function Text(x: real): string { text(x) }
    function Tag(target: string): seq<string> { tag(target) }

    /** A target has at most one tag. */
    ghost predicate Valid() {
      && (forall x :: Plain(Text(x)))
      && (forall t :: |Tag(t)| <= 1 && forall i :: 0 <= i < |Tag(t)| ==> Plain(Tag(t)[i]))
    }
  }

  // ---- the part of a call that its key shows ------------------------------

  function PrintQuant(h: Host, q: Quantization<real>): Quantization<string> {
    match q
    case Off => Off
    case On(scale, zero) => On(h.Text(scale), zero)
  }

  function PrintAttrs(h: Host, a: Attrs<real>): Attrs<string> {
    match a
    case Elementwise(kind, inputs, ims, inplace) =>
      Elementwise(kind, inputs, seq(|ims|, i requires 0 <= i < |ims| => h.Text(ims[i])), inplace)
    case MatMul(lhs, rhs, acc, splitK) => MatMul(lhs, rhs, acc, splitK)
    case Transpose(input) => Transpose(input)
    case Cast(input, to) => Cast(input, to)
    case Reduce(kind, input, along, keepdim) => Reduce(kind, input, along, keepdim)
    case Softmax(input, axis, stable, causal) => Softmax(input, axis, stable, causal)
    case Store(input, output) => Store(input, output)
  }

  function PrintNode(h: Host, n: Node<real>): Node<string> {
    Node(n.id, n.kind, n.inputs, n.outputs, n.sideEffectFree, PrintAttrs(h, n.attrs))
  }

  function PrintNodes(h: Host, ns: seq<Node<real>>): (r: seq<Node<string>>)
    ensures |r| == |ns|
    ensures h.Valid() ==> PlainNodes(r)
  {
    seq(|ns|, i requires 0 <= i < |ns| => PrintNode(h, ns[i]))
  }

  function PrintGraph(h: Host, g: Graph<real>): Graph<string> {
    Graph(g.values, g.inputs, g.outputs, g.topo, PrintNodes(h, g.nodes))
  }

  /** Only two dimensions of a tensor of rank two or more are shown. */
  function PrintView(h: Host, v: View<real>): View<string> {
    View(v.symbol, v.dtype, if |v.shape| >= 2 then v.shape[..2] else [], v.isDevice, PrintQuant(h, v.quant))
  }

  function EffectiveName(name: string): string {
    if name == "" then "matcore_kernel" else name
  }

  /** Only three tensors are shown. */
  function Shown(h: Host, c: Call<real>): Call<string> {
    var n := if |c.tensors| < 3 then |c.tensors| else 3;
    Call(EffectiveName(c.name), c.target, c.graphMode, PrintGraph(h, c.graph), PrintQuant(h, c.quant),
         seq(n, i requires 0 <= i < n => PrintView(h, c.tensors[i])))
  }

  /** Names without delimiters. */
  predicate PlainNames(c: Call<string>) {
    && Avoids(c.name, {'|'}) && Avoids(c.target, {'|'})
    && (forall i :: 0 <= i < |c.graph.values| ==> Plain(c.graph.values[i].symbol))
    && (forall i :: 0 <= i < |c.tensors| ==> Plain(c.tensors[i].symbol))
  }

  predicate PlainQuant(q: Quantization<string>) {
    q.On? ==> Plain(q.scale)
  }

  predicate PlainAttrs(a: Attrs<string>) {
    a.Elementwise? ==> forall i :: 0 <= i < |a.immediates| ==> Plain(a.immediates[i])
  }

  predicate PlainView(v: View<string>) {
    Plain(v.symbol) && PlainQuant(v.quant) && (|v.shape| == 0 || |v.shape| == 2)
  }

  predicate PlainCall(c: Call<string>) {
    && PlainNames(c) && PlainQuant(c.quant)
    && (forall i :: 0 <= i < |c.graph.nodes| ==> PlainAttrs(c.graph.nodes[i].attrs))
    && (forall i :: 0 <= i < |c.tensors| ==> PlainView(c.tensors[i]))
  }

  lemma ShownIsPlain(h: Host, c: Call<real>)
    requires h.Valid() && PlainNames(Shown(h, c))
    ensures PlainCall(Shown(h, c))
  {
  }

  // ---- the key as tokens --------------------------------------------------

  function Bit(b: bool): string { if b then "1" else "0" }

  function Numbers(lead: Token, xs: seq<int>): seq<Token> {
    [lead] + ListTokens('=', ',', Decimals(xs), "")
  }

  function Flag(on: bool, word: string): seq<Token> { if on then [Token(':', word)] else [] }

  function ValueHead(v: Value): seq<Token> {
    [Token(';', "v"), Token(':', v.symbol), Token(':', Decimal(v.dtype)), Token(':', Decimal(v.kind)),
     Token(':', Decimal(v.hint)), Token(':', Decimal(v.escape))]
  }

  function ValueFlags(v: Value): seq<Token> {
    Flag(v.isParameter, "p") + (Flag(v.isOutput, "o") + Flag(v.isDevice, "dev"))
  }

  function ValueRest(v: Value): seq<Token> {
    Numbers(Token(':', "s"), v.shape) + (Numbers(Token(':', "t"), v.strides) + ValueFlags(v))
  }

  function ValueTokens(v: Value): seq<Token> {
    ValueHead(v) + ValueRest(v)
  }

  function AttrsHead(a: Attrs<string>): seq<Token> {
    match a
    case MatMul(lhs, rhs, acc, splitK) =>
      [Token('=', "0"), Token(':', "mm"), Token(':', Decimal(lhs.id)), Token('/', Bit(lhs.transposed)),
       Token(',', Decimal(rhs.id)), Token('/', Bit(rhs.transposed)), Token(',', Decimal(acc)), Token(',', Bit(splitK))]
    case Elementwise(kind, _, _, _) =>
      [Token('=', "1"), Token(':', "ew"), Token(':', Decimal(kind)), Token(',', "in")]
    case Transpose(input) => [Token('=', "2"), Token(':', "tp"), Token(':', Decimal(input))]
    case Cast(input, to) => [Token('=', "3"), Token(':', "cast"), Token(':', Decimal(input)), Token(',', Decimal(to))]
    case Reduce(kind, input, along, keepdim) =>
      [Token('=', "4"), Token(':', "red"), Token(':', Decimal(kind)), Token(',', Decimal(input)),
       Token(',', Decimal(along)), Token(',', Bit(keepdim))]
    case Softmax(input, axis, stable, causal) =>
      [Token('=', "5"), Token(':', "sm"), Token(':', Decimal(input)), Token(',', Decimal(axis)), Token(',', Bit(stable)),
       Token(',', Bit(causal))]
    case Store(input, output) =>
      [Token('=', "6"), Token(':', "st"), Token(':', Decimal(input)), Token(',', Decimal(output))]
  }

  /** Only elementwise attributes hold lists: operand ids, then immediates with the in-place bit as last word. */
  function AttrsLists(a: Attrs<string>): seq<Token>
    requires PlainAttrs(a)
  {
    if !a.Elementwise? then []
    else ListTokens('=', '/', Decimals(a.inputs), "") + ([Token(',', "im")] + ListTokens('=', '/', a.immediates, Bit(a.inplace)))
  }

  function NodeHead(n: Node<string>): seq<Token> {
    [Token(';', "n"), Token(':', Decimal(n.id)), Token(':', Decimal(n.kind))]
  }

  function NodeMid(n: Node<string>): seq<Token> {
    [Token(':', "sef"), Token('=', Bit(n.sideEffectFree)), Token(':', "attr")]
  }

  function NodeTokens(n: Node<string>): seq<Token>
    requires PlainAttrs(n.attrs)
  {
    NodeHead(n)
    + (Numbers(Token(':', "in"), n.inputs)
       + (Numbers(Token(':', "out"), n.outputs)
          + (NodeMid(n) + (AttrsHead(n.attrs) + AttrsLists(n.attrs)))))
  }

  function ValuesTokens(vs: seq<Value>): seq<Token> {
    if vs == [] then [] else ValueTokens(vs[0]) + ValuesTokens(vs[1..])
  }

  predicate PlainNodes(ns: seq<Node<string>>) {
    forall i :: 0 <= i < |ns| ==> PlainAttrs(ns[i].attrs)
  }

  function NodesTokens(ns: seq<Node<string>>): seq<Token>
    requires PlainNodes(ns)
  {
    if ns == [] then [] else NodeTokens(ns[0]) + NodesTokens(ns[1..])
  }

  function GraphHead(g: Graph<string>): seq<Token> {
    [Token('|', "gv2"), Token('|', "nv"), Token('=', Decimal(|g.values|))]
  }

  function NodesHead(g: Graph<string>): seq<Token> {
    [Token('|', "nn"), Token('=', Decimal(|g.nodes|))]
  }

  function GraphRest(g: Graph<string>): seq<Token>
    requires PlainNodes(g.nodes)
  {
    Numbers(Token('|', "iv"), g.inputs)
    + (Numbers(Token('|', "ov"), g.outputs)
       + (Numbers(Token('|', "topo"), g.topo)
          + (NodesHead(g) + NodesTokens(g.nodes))))
  }

  function GraphTokens(g: Graph<string>): seq<Token>
    requires PlainNodes(g.nodes)
  {
    GraphHead(g) + (ValuesTokens(g.values) + GraphRest(g))
  }

  function DTypeName(d: DType): (s: string)
    ensures Plain(s)
  {
    match d
    case Float32 => "float32"
    case Float16 => "float16"
    case BFloat16 => "bfloat16"
    case Int8 => "int8"
    case Int32 => "int32"
    case Float8 => "float8_e4m3fn"
  }

  function DimsTokens(shape: seq<int>): seq<Token> {
    if |shape| >= 2 then [Token(':', Decimal(shape[0]) + "x" + Decimal(shape[1]))] else []
  }

  function ViewQuant(q: Quantization<string>): seq<Token> {
    if q.On? then [Token(':', "q"), Token('=', q.scale), Token(':', Decimal(q.zero))] else []
  }

  function ViewHead(v: View<string>): seq<Token> {
    [Token('|', v.symbol), Token(':', DTypeName(v.dtype))]
  }

  function ViewTokens(v: View<string>): seq<Token> {
    ViewHead(v) + (DimsTokens(v.shape) + (Flag(v.isDevice, "dev") + ViewQuant(v.quant)))
  }

  function ViewsTokens(vs: seq<View<string>>): seq<Token> {
    if vs == [] then [] else ViewTokens(vs[0]) + ViewsTokens(vs[1..])
  }

  function ModeTokens(graphMode: bool, tag: seq<string>): seq<Token> {
    (if graphMode then [Token('|', "graph_mode")] else []) + if tag == [] then [] else [Token('|', tag[0])]
  }

  function QuantTokens(q: Quantization<string>): seq<Token> {
    match q
    case Off => []
    case On(scale, zero) => [Token('|', "gq"), Token('=', scale), Token(':', Decimal(zero))]
  }

  function TailTokens(h: Host, c: Call<string>): seq<Token>
    requires PlainNodes(c.graph.nodes)
  {
    ModeTokens(c.graphMode, h.Tag(c.target)) + (GraphTokens(c.graph) + (QuantTokens(c.quant) + ViewsTokens(c.tensors)))
  }

  function Key(h: Host, c: Call<string>): string
    requires PlainNodes(c.graph.nodes)
  {
    c.name + ("|target=" + (c.target + Flat(TailTokens(h, c))))
  }

  // ---- reading a key back -------------------------------------------------

  lemma BitUnique(a: bool, b: bool)
    requires Bit(a) == Bit(b)
    ensures a == b
  {
    assert Bit(a)[0] == Bit(b)[0];
  }

  lemma NumbersUnique(lead: Token, xs: seq<int>, ys: seq<int>, s: seq<Token>, t: seq<Token>)
    requires Numbers(lead, xs) + s == Numbers(lead, ys) + t && !StartsWith(s, ',') && !StartsWith(t, ',')
    ensures xs == ys && s == t
  {
    var p, q := ListTokens('=', ',', Decimals(xs), ""), ListTokens('=', ',', Decimals(ys), "");
    HeadTail(lead, p, s);
    HeadTail(lead, q, t);
    ListUnique('=', ',', Decimals(xs), Decimals(ys), "", "", s, t);
    DecimalsUnique(xs, ys);
  }

  lemma FlagUnique(a: bool, b: bool, word: string, s: seq<Token>, t: seq<Token>)
    requires Flag(a, word) + s == Flag(b, word) + t && (s == [] || s[0] != Token(':', word)) && (t == [] || t[0] != Token(':', word))
    ensures a == b && s == t
  {
    assert a ==> (Flag(a, word) + s)[0] == Token(':', word);
    assert b ==> (Flag(b, word) + t)[0] == Token(':', word);
    assert !a ==> Flag(a, word) + s == s;
    assert !b ==> Flag(b, word) + t == t;
    if a && b {
      Cut(Flag(a, word), Flag(b, word), s, t);
    }
  }

  /** What may follow a record: the next one, the next section, or nothing. */
  predicate NextRecord(s: seq<Token>) {
    s == [] || s[0].mark == ';' || s[0].mark == '|'
  }

  lemma FlagsUnique(v: Value, w: Value, s: seq<Token>, t: seq<Token>)
    requires ValueFlags(v) + s == ValueFlags(w) + t && NextRecord(s) && NextRecord(t)
    ensures v.isParameter == w.isParameter && v.isOutput == w.isOutput && v.isDevice == w.isDevice && s == t
  {
    var p, q := Flag(v.isOutput, "o") + Flag(v.isDevice, "dev"), Flag(w.isOutput, "o") + Flag(w.isDevice, "dev");
    assert "p"[0] != "o"[0] && "p"[0] != "dev"[0] && "o"[0] != "dev"[0];
    Peel(Flag(v.isParameter, "p"), Flag(w.isParameter, "p"), p, q, s, t);
    FlagStart(v.isDevice, "dev", s);
    FlagStart(w.isDevice, "dev", t);
    Nest(Flag(v.isOutput, "o"), Flag(v.isDevice, "dev"), s);
    Nest(Flag(w.isOutput, "o"), Flag(w.isDevice, "dev"), t);
    FlagStart(v.isOutput, "o", Flag(v.isDevice, "dev") + s);
    FlagStart(w.isOutput, "o", Flag(w.isDevice, "dev") + t);
    FlagUnique(v.isParameter, w.isParameter, "p", p + s, q + t);
    FlagUnique(v.isOutput, w.isOutput, "o", Flag(v.isDevice, "dev") + s, Flag(w.isDevice, "dev") + t);
    FlagUnique(v.isDevice, w.isDevice, "dev", s, t);
  }

  lemma FlagStart(on: bool, word: string, s: seq<Token>)
    ensures if on then Flag(on, word) + s != [] && (Flag(on, word) + s)[0] == Token(':', word) else Flag(on, word) + s == s
  {
  }

  lemma Peel<T>(a: seq<T>, b: seq<T>, x: seq<T>, y: seq<T>, s: seq<T>, t: seq<T>)
    requires (a + x) + s == (b + y) + t
    ensures a + (x + s) == b + (y + t)
  {
    Nest(a, x, s);
    Nest(b, y, t);
  }

  lemma ValueUnique(v: Value, w: Value, s: seq<Token>, t: seq<Token>)
    requires ValueTokens(v) + s == ValueTokens(w) + t && NextRecord(s) && NextRecord(t)
    ensures v == w && s == t
  {
    var x1, y1 := ValueRest(v), ValueRest(w);
    Peel(ValueHead(v), ValueHead(w), x1, y1, s, t);
    Cut(ValueHead(v), ValueHead(w), x1 + s, y1 + t);
    ValueHeadUnique(v, w);
    ValueRestUnique(v, w, s, t);
  }

  lemma ValueRestUnique(v: Value, w: Value, s: seq<Token>, t: seq<Token>)
    requires ValueRest(v) + s == ValueRest(w) + t && NextRecord(s) && NextRecord(t)
    ensures v.shape == w.shape && v.strides == w.strides && s == t
    ensures v.isParameter == w.isParameter && v.isOutput == w.isOutput && v.isDevice == w.isDevice
  {
    var x, y := Numbers(Token(':', "t"), v.strides), Numbers(Token(':', "t"), w.strides);
    Peel(Numbers(Token(':', "s"), v.shape), Numbers(Token(':', "s"), w.shape), x + ValueFlags(v), y + ValueFlags(w), s, t);
    NumbersUnique(Token(':', "s"), v.shape, w.shape, (x + ValueFlags(v)) + s, (y + ValueFlags(w)) + t);
    Peel(x, y, ValueFlags(v), ValueFlags(w), s, t);
    FlagsStart(v, s);
    FlagsStart(w, t);
    NumbersUnique(Token(':', "t"), v.strides, w.strides, ValueFlags(v) + s, ValueFlags(w) + t);
    FlagsUnique(v, w, s, t);
  }

  lemma FlagsStart(v: Value, s: seq<Token>)
    requires NextRecord(s)
    ensures !StartsWith(ValueFlags(v) + s, ',')
  {
    if ValueFlags(v) == [] {
      assert ValueFlags(v) + s == s;
    }
  }

  lemma ValueHeadUnique(v: Value, w: Value)
    requires ValueHead(v) == ValueHead(w)
    ensures v.symbol == w.symbol && v.dtype == w.dtype && v.kind == w.kind && v.hint == w.hint && v.escape == w.escape
  {
    assert forall i :: 0 <= i < 6 ==> ValueHead(v)[i].word == ValueHead(w)[i].word;
    assert ValueHead(v)[1].word == v.symbol && ValueHead(w)[1].word == w.symbol;
    DecimalUnique(v.dtype, w.dtype);
    DecimalUnique(v.kind, w.kind);
    DecimalUnique(v.hint, w.hint);
    DecimalUnique(v.escape, w.escape);
  }

  /** The list part of elementwise attributes, up to the last word's flag. */
  lemma AttrsListsUnique(a: Attrs<string>, b: Attrs<string>, s: seq<Token>, t: seq<Token>)
    requires PlainAttrs(a) && PlainAttrs(b) && a.Elementwise? && b.Elementwise?
    requires AttrsLists(a) + s == AttrsLists(b) + t && NextRecord(s) && NextRecord(t)
    ensures a.inputs == b.inputs && a.immediates == b.immediates && a.inplace == b.inplace && s == t
  {
    var p, q := ListTokens('=', '/', Decimals(a.inputs), ""), ListTokens('=', '/', Decimals(b.inputs), "");
    var im := [Token(',', "im")];
    var x, y := ListTokens('=', '/', a.immediates, Bit(a.inplace)), ListTokens('=', '/', b.immediates, Bit(b.inplace));
    Peel(p, q, im + x, im + y, s, t);
    ListUnique('=', '/', Decimals(a.inputs), Decimals(b.inputs), "", "", (im + x) + s, (im + y) + t);
    DecimalsUnique(a.inputs, b.inputs);
    Peel(im, im, x, y, s, t);
    Cut(im, im, x + s, y + t);
    ListUnique('=', '/', a.immediates, b.immediates, Bit(a.inplace), Bit(b.inplace), s, t);
    BitUnique(a.inplace, b.inplace);
  }

  /** The index of the alternative comes first, so equal heads are of the same alternative. */
  lemma AttrsHeadUnique(a: Attrs<string>, b: Attrs<string>, x: seq<Token>, y: seq<Token>)
    requires AttrsHead(a) + x == AttrsHead(b) + y
    ensures AttrsHead(a) == AttrsHead(b) && x == y && a.Elementwise? == b.Elementwise?
    ensures !a.Elementwise? ==> a == b
    ensures a.Elementwise? ==> a.kind == b.kind
  {
    assert (AttrsHead(a) + x)[0] == AttrsHead(a)[0] && (AttrsHead(b) + y)[0] == AttrsHead(b)[0];
    assert AttrsHead(a)[0].word[0] == AttrsHead(b)[0].word[0];
    Cut(AttrsHead(a), AttrsHead(b), x, y);
    SameHead(a, b);
  }

  lemma SameHead(a: Attrs<string>, b: Attrs<string>)
    requires AttrsHead(a) == AttrsHead(b) && AttrsHead(a)[0].word[0] == AttrsHead(b)[0].word[0]
    ensures a.Elementwise? == b.Elementwise?
    ensures !a.Elementwise? ==> a == b
    ensures a.Elementwise? ==> a.kind == b.kind
  {
    var p, q := AttrsHead(a), AttrsHead(b);
    assert forall i :: 0 <= i < |p| ==> p[i].word == q[i].word;
    match a
    case MatMul(lhs, rhs, acc, splitK) =>
      DecimalUnique(lhs.id, b.lhs.id);
      BitUnique(lhs.transposed, b.lhs.transposed);
      DecimalUnique(rhs.id, b.rhs.id);
      BitUnique(rhs.transposed, b.rhs.transposed);
      DecimalUnique(acc, b.acc);
      BitUnique(splitK, b.splitK);
    case Elementwise(kind, _, _, _) =>
      DecimalUnique(kind, b.kind);
    case Transpose(input) =>
      DecimalUnique(input, b.input);
    case Cast(input, to) =>
      DecimalUnique(input, b.input);
      DecimalUnique(to, b.to);
    case Reduce(kind, input, along, keepdim) =>
      DecimalUnique(kind, b.kind);
      DecimalUnique(input, b.input);
      DecimalUnique(along, b.along);
      BitUnique(keepdim, b.keepdim);
    case Softmax(input, axis, stable, causal) =>
      DecimalUnique(input, b.input);
      DecimalUnique(axis, b.axis);
      BitUnique(stable, b.stable);
      BitUnique(causal, b.causal);
    case Store(input, output) =>
      DecimalUnique(input, b.input);
      DecimalUnique(output, b.output);
  }

  lemma AttrsUnique(a: Attrs<string>, b: Attrs<string>, s: seq<Token>, t: seq<Token>)
    requires PlainAttrs(a) && PlainAttrs(b) && NextRecord(s) && NextRecord(t)
    requires (AttrsHead(a) + AttrsLists(a)) + s == (AttrsHead(b) + AttrsLists(b)) + t
    ensures a == b && s == t
  {
    Peel(AttrsHead(a), AttrsHead(b), AttrsLists(a), AttrsLists(b), s, t);
    AttrsHeadUnique(a, b, AttrsLists(a) + s, AttrsLists(b) + t);
    if a.Elementwise? {
      AttrsListsUnique(a, b, s, t);
    } else {
      assert [] + s == s && [] + t == t;
    }
  }

  lemma NodeUnique(m: Node<string>, n: Node<string>, s: seq<Token>, t: seq<Token>)
    requires PlainAttrs(m.attrs) && PlainAttrs(n.attrs) && NextRecord(s) && NextRecord(t)
    requires NodeTokens(m) + s == NodeTokens(n) + t
    ensures m == n && s == t
  {
    var x4, y4 := AttrsHead(m.attrs) + AttrsLists(m.attrs), AttrsHead(n.attrs) + AttrsLists(n.attrs);
    var x3, y3 := NodeMid(m) + x4, NodeMid(n) + y4;
    var x2, y2 := Numbers(Token(':', "out"), m.outputs) + x3, Numbers(Token(':', "out"), n.outputs) + y3;
    var x1, y1 := Numbers(Token(':', "in"), m.inputs) + x2, Numbers(Token(':', "in"), n.inputs) + y2;
    Peel(NodeHead(m), NodeHead(n), x1, y1, s, t);
    Cut(NodeHead(m), NodeHead(n), x1 + s, y1 + t);
    Peel(Numbers(Token(':', "in"), m.inputs), Numbers(Token(':', "in"), n.inputs), x2, y2, s, t);
    NumbersUnique(Token(':', "in"), m.inputs, n.inputs, x2 + s, y2 + t);
    Peel(Numbers(Token(':', "out"), m.outputs), Numbers(Token(':', "out"), n.outputs), x3, y3, s, t);
    NumbersUnique(Token(':', "out"), m.outputs, n.outputs, x3 + s, y3 + t);
    Peel(NodeMid(m), NodeMid(n), x4, y4, s, t);
    Cut(NodeMid(m), NodeMid(n), x4 + s, y4 + t);
    AttrsUnique(m.attrs, n.attrs, s, t);
    NodeHeadUnique(m, n);
  }

  lemma NodeHeadUnique(m: Node<string>, n: Node<string>)
    requires NodeHead(m) == NodeHead(n) && NodeMid(m) == NodeMid(n)
    ensures m.id == n.id && m.kind == n.kind && m.sideEffectFree == n.sideEffectFree
  {
    assert NodeHead(m)[1].word == NodeHead(n)[1].word && NodeHead(m)[2].word == NodeHead(n)[2].word;
    assert NodeMid(m)[1].word == NodeMid(n)[1].word;
    DecimalUnique(m.id, n.id);
    DecimalUnique(m.kind, n.kind);
    BitUnique(m.sideEffectFree, n.sideEffectFree);
  }

  lemma ValuesStart(vs: seq<Value>, s: seq<Token>)
    requires NextRecord(s)
    ensures NextRecord(ValuesTokens(vs) + s)
  {
    if vs == [] {
      assert ValuesTokens(vs) + s == s;
    }
  }

  lemma {:induction false} ValuesUnique(vs: seq<Value>, ws: seq<Value>, s: seq<Token>, t: seq<Token>)
    requires |vs| == |ws| && NextRecord(s) && NextRecord(t) && ValuesTokens(vs) + s == ValuesTokens(ws) + t
    ensures vs == ws && s == t
  {
    if vs == [] {
      assert ValuesTokens(vs) + s == s && ValuesTokens(ws) + t == t;
    } else {
      var x, y := ValuesTokens(vs[1..]), ValuesTokens(ws[1..]);
      Peel(ValueTokens(vs[0]), ValueTokens(ws[0]), x, y, s, t);
      ValuesStart(vs[1..], s);
      ValuesStart(ws[1..], t);
      ValueUnique(vs[0], ws[0], x + s, y + t);
      ValuesUnique(vs[1..], ws[1..], s, t);
      assert vs == [vs[0]] + vs[1..] && ws == [ws[0]] + ws[1..];
    }
  }

  lemma NodesStart(ns: seq<Node<string>>, s: seq<Token>)
    requires PlainNodes(ns) && NextRecord(s)
    ensures NextRecord(NodesTokens(ns) + s)
  {
    if ns == [] {
      assert NodesTokens(ns) + s == s;
    } else {
      assert NodeTokens(ns[0])[0] == Token(';', "n");
    }
  }

  lemma {:induction false} NodesUnique(ms: seq<Node<string>>, ns: seq<Node<string>>, s: seq<Token>, t: seq<Token>)
    requires PlainNodes(ms) && PlainNodes(ns)
    requires |ms| == |ns| && NextRecord(s) && NextRecord(t) && NodesTokens(ms) + s == NodesTokens(ns) + t
    ensures ms == ns && s == t
  {
    if ms == [] {
      assert NodesTokens(ms) + s == s && NodesTokens(ns) + t == t;
    } else {
      var x, y := NodesTokens(ms[1..]), NodesTokens(ns[1..]);
      Peel(NodeTokens(ms[0]), NodeTokens(ns[0]), x, y, s, t);
      NodesStart(ms[1..], s);
      NodesStart(ns[1..], t);
      NodeUnique(ms[0], ns[0], x + s, y + t);
      NodesUnique(ms[1..], ns[1..], s, t);
      assert ms == [ms[0]] + ms[1..] && ns == [ns[0]] + ns[1..];
    }
  }

  lemma GraphUnique(g: Graph<string>, h: Graph<string>, s: seq<Token>, t: seq<Token>)
    requires PlainNodes(g.nodes) && PlainNodes(h.nodes) && NextRecord(s) && NextRecord(t)
    requires GraphTokens(g) + s == GraphTokens(h) + t
    ensures g == h && s == t
  {
    var x1, y1 := ValuesTokens(g.values) + GraphRest(g), ValuesTokens(h.values) + GraphRest(h);
    Peel(GraphHead(g), GraphHead(h), x1, y1, s, t);
    Cut(GraphHead(g), GraphHead(h), x1 + s, y1 + t);
    assert GraphHead(g)[2].word == GraphHead(h)[2].word;
    DecimalUnique(|g.values|, |h.values|);
    Peel(ValuesTokens(g.values), ValuesTokens(h.values), GraphRest(g), GraphRest(h), s, t);
    ValuesUnique(g.values, h.values, GraphRest(g) + s, GraphRest(h) + t);
    GraphRestUnique(g, h, s, t);
  }

  lemma GraphRestUnique(g: Graph<string>, h: Graph<string>, s: seq<Token>, t: seq<Token>)
    requires PlainNodes(g.nodes) && PlainNodes(h.nodes) && NextRecord(s) && NextRecord(t)
    requires GraphRest(g) + s == GraphRest(h) + t
    ensures g.inputs == h.inputs && g.outputs == h.outputs && g.topo == h.topo && g.nodes == h.nodes && s == t
  {
    var x4, y4 := NodesTokens(g.nodes), NodesTokens(h.nodes);
    var x3, y3 := NodesHead(g) + x4, NodesHead(h) + y4;
    var x2, y2 := Numbers(Token('|', "topo"), g.topo) + x3, Numbers(Token('|', "topo"), h.topo) + y3;
    var x1, y1 := Numbers(Token('|', "ov"), g.outputs) + x2, Numbers(Token('|', "ov"), h.outputs) + y2;
    Peel(Numbers(Token('|', "iv"), g.inputs), Numbers(Token('|', "iv"), h.inputs), x1, y1, s, t);
    NumbersUnique(Token('|', "iv"), g.inputs, h.inputs, x1 + s, y1 + t);
    Peel(Numbers(Token('|', "ov"), g.outputs), Numbers(Token('|', "ov"), h.outputs), x2, y2, s, t);
    NumbersUnique(Token('|', "ov"), g.outputs, h.outputs, x2 + s, y2 + t);
    Peel(Numbers(Token('|', "topo"), g.topo), Numbers(Token('|', "topo"), h.topo), x3, y3, s, t);
    NumbersUnique(Token('|', "topo"), g.topo, h.topo, x3 + s, y3 + t);
    Peel(NodesHead(g), NodesHead(h), x4, y4, s, t);
    Cut(NodesHead(g), NodesHead(h), x4 + s, y4 + t);
    assert NodesHead(g)[1].word == NodesHead(h)[1].word;
    DecimalUnique(|g.nodes|, |h.nodes|);
    NodesUnique(g.nodes, h.nodes, s, t);
  }

  /** What may follow a tensor. */
  predicate AtBar(s: seq<Token>) {
    s == [] || s[0].mark == '|'
  }

  /** Not the dimensions of a tensor: those begin with a digit or a sign. */
  predicate NotDims(s: seq<Token>) {
    AtBar(s) || (s[0].mark == ':' && |s[0].word| > 0 && (s[0].word[0] == 'd' || s[0].word[0] == 'q'))
  }

  lemma DimsUnique(a: seq<int>, b: seq<int>, s: seq<Token>, t: seq<Token>)
    requires |a| == 0 || |a| == 2
    requires |b| == 0 || |b| == 2
    requires DimsTokens(a) + s == DimsTokens(b) + t && NotDims(s) && NotDims(t)
    ensures a == b && s == t
  {
    assert |a| == 0 ==> DimsTokens(a) + s == s;
    assert |b| == 0 ==> DimsTokens(b) + t == t;
    assert |a| == 2 ==> (DimsTokens(a) + s)[0].word[0] == Decimal(a[0])[0];
    assert |b| == 2 ==> (DimsTokens(b) + t)[0].word[0] == Decimal(b[0])[0];
    if |a| == 2 && |b| == 2 {
      Cut(DimsTokens(a), DimsTokens(b), s, t);
      assert DimsTokens(a)[0].word == DimsTokens(b)[0].word;
      DimsWordUnique(a[0], a[1], b[0], b[1]);
      assert a == [a[0], a[1]] && b == [b[0], b[1]];
    }
  }

  lemma DimsWordUnique(a: int, b: int, c: int, d: int)
    requires Decimal(a) + "x" + Decimal(b) == Decimal(c) + "x" + Decimal(d)
    ensures a == c && b == d
  {
    Nest(Decimal(a), "x", Decimal(b));
    Nest(Decimal(c), "x", Decimal(d));
    WordEnds(Decimal(a), Decimal(c), "x" + Decimal(b), "x" + Decimal(d), {'x'});
    Cut("x", "x", Decimal(b), Decimal(d));
    DecimalUnique(a, c);
    DecimalUnique(b, d);
  }

  lemma ViewQuantUnique(p: Quantization<string>, q: Quantization<string>, s: seq<Token>, t: seq<Token>)
    requires ViewQuant(p) + s == ViewQuant(q) + t && AtBar(s) && AtBar(t)
    ensures p == q && s == t
  {
    assert p.Off? ==> ViewQuant(p) + s == s;
    assert q.Off? ==> ViewQuant(q) + t == t;
    assert p.On? ==> (ViewQuant(p) + s)[0].mark == ':';
    assert q.On? ==> (ViewQuant(q) + t)[0].mark == ':';
    if p.On? && q.On? {
      Cut(ViewQuant(p), ViewQuant(q), s, t);
      assert ViewQuant(p)[1].word == ViewQuant(q)[1].word && ViewQuant(p)[2].word == ViewQuant(q)[2].word;
      DecimalUnique(p.zero, q.zero);
    }
  }

  lemma DTypeNameUnique(a: DType, b: DType)
    requires DTypeName(a) == DTypeName(b)
    ensures a == b
  {
    var x, y := DTypeName(a), DTypeName(b);
    assert |x| == |y|;
    assert x[0] == y[0] && x[|x| - 1] == y[|y| - 1] && x[|x| - 2] == y[|y| - 2];
  }

  lemma ViewStart(v: View<string>, s: seq<Token>)
    requires AtBar(s)
    ensures NotDims((Flag(v.isDevice, "dev") + ViewQuant(v.quant)) + s)
    ensures ViewQuant(v.quant) + s == [] || (ViewQuant(v.quant) + s)[0] != Token(':', "dev")
  {
    var rest := ViewQuant(v.quant) + s;
    assert v.quant.Off? ==> rest == s;
    assert v.quant.On? ==> rest[0] == Token(':', "q");
    assert "q"[0] != "dev"[0];
    Nest(Flag(v.isDevice, "dev"), ViewQuant(v.quant), s);
    FlagStart(v.isDevice, "dev", rest);
  }

  lemma ViewUnique(v: View<string>, w: View<string>, s: seq<Token>, t: seq<Token>)
    requires PlainView(v) && PlainView(w) && AtBar(s) && AtBar(t) && ViewTokens(v) + s == ViewTokens(w) + t
    ensures v == w && s == t
  {
    var x2, y2 := Flag(v.isDevice, "dev") + ViewQuant(v.quant), Flag(w.isDevice, "dev") + ViewQuant(w.quant);
    var x1, y1 := DimsTokens(v.shape) + x2, DimsTokens(w.shape) + y2;
    Peel(ViewHead(v), ViewHead(w), x1, y1, s, t);
    Cut(ViewHead(v), ViewHead(w), x1 + s, y1 + t);
    assert ViewHead(v)[0].word == ViewHead(w)[0].word && ViewHead(v)[1].word == ViewHead(w)[1].word;
    DTypeNameUnique(v.dtype, w.dtype);
    ViewStart(v, s);
    ViewStart(w, t);
    Peel(DimsTokens(v.shape), DimsTokens(w.shape), x2, y2, s, t);
    DimsUnique(v.shape, w.shape, x2 + s, y2 + t);
    Peel(Flag(v.isDevice, "dev"), Flag(w.isDevice, "dev"), ViewQuant(v.quant), ViewQuant(w.quant), s, t);
    FlagUnique(v.isDevice, w.isDevice, "dev", ViewQuant(v.quant) + s, ViewQuant(w.quant) + t);
    ViewQuantUnique(v.quant, w.quant, s, t);
  }

  /** The list of tensors is not counted in the key; it runs to the end. */
  lemma {:induction false} ViewsUnique(vs: seq<View<string>>, ws: seq<View<string>>)
    requires (forall i :: 0 <= i < |vs| ==> PlainView(vs[i])) && (forall i :: 0 <= i < |ws| ==> PlainView(ws[i]))
    requires ViewsTokens(vs) == ViewsTokens(ws)
    ensures vs == ws
  {
    if vs != [] && ws != [] {
      ViewUnique(vs[0], ws[0], ViewsTokens(vs[1..]), ViewsTokens(ws[1..]));
      ViewsUnique(vs[1..], ws[1..]);
      assert vs == [vs[0]] + vs[1..] && ws == [ws[0]] + ws[1..];
    } else {
      SecondToken(Off, vs);
      SecondToken(Off, ws);
      assert vs != [] ==> ViewsTokens(vs) != [];
      assert ws != [] ==> ViewsTokens(ws) != [];
    }
  }

  /** The second token tells the kernel's quantization from a tensor, even from one named "gq". */
  lemma SecondToken(q: Quantization<string>, vs: seq<View<string>>)
    ensures var all := QuantTokens(q) + ViewsTokens(vs);
            if q.On? then |all| >= 3 && all[1].mark == '='
            else all == ViewsTokens(vs) && (all == [] || (|all| >= 2 && all[1].mark == ':'))
  {
    hide ViewTokens;
    if q.Off? {
      assert QuantTokens(q) + ViewsTokens(vs) == ViewsTokens(vs);
      if vs != [] {
        ViewSecond(vs[0], ViewsTokens(vs[1..]));
      }
    }
  }

  lemma ViewSecond(v: View<string>, rest: seq<Token>)
    ensures |ViewTokens(v) + rest| >= 2 && (ViewTokens(v) + rest)[1].mark == ':'
  {
    assert ViewTokens(v)[1] == ViewHead(v)[1];
  }

  lemma QuantUnique(p: Quantization<string>, q: Quantization<string>, vs: seq<View<string>>, ws: seq<View<string>>)
    requires QuantTokens(p) + ViewsTokens(vs) == QuantTokens(q) + ViewsTokens(ws)
    ensures p == q && ViewsTokens(vs) == ViewsTokens(ws)
  {
    SecondToken(p, vs);
    SecondToken(q, ws);
    if p.On? && q.On? {
      Cut(QuantTokens(p), QuantTokens(q), ViewsTokens(vs), ViewsTokens(ws));
      assert QuantTokens(p)[1].word == QuantTokens(q)[1].word && QuantTokens(p)[2].word == QuantTokens(q)[2].word;
      DecimalUnique(p.zero, q.zero);
    }
  }

  lemma ModeUnique(a: bool, b: bool, tag: seq<string>, x: seq<Token>, y: seq<Token>)
    requires |tag| <= 1 && x != [] && y != [] && x[0] == Token('|', "gv2") && y[0] == Token('|', "gv2")
    requires ModeTokens(a, tag) + x == ModeTokens(b, tag) + y
    ensures a == b && x == y
  {
    assert "gv2"[1] != "graph_mode"[1];
    if a == b {
      Cut(ModeTokens(a, tag), ModeTokens(b, tag), x, y);
    } else {
      ModeDiffers(tag, if a then x else y, if a then y else x);
    }
  }

  lemma ModeDiffers(tag: seq<string>, x: seq<Token>, y: seq<Token>)
    requires |tag| <= 1 && x != [] && y != [] && x[0] == Token('|', "gv2") && y[0] == Token('|', "gv2")
    requires "gv2"[1] != "graph_mode"[1]
    ensures ModeTokens(true, tag) + x != ModeTokens(false, tag) + y
  {
    var p, q := ModeTokens(true, tag) + x, ModeTokens(false, tag) + y;
    assert p[0].word == "graph_mode";
    assert tag == [] ==> q[0].word == "gv2";
    assert tag != [] ==> q[0].word == tag[0] && p[1].word == tag[0] && q[1].word == "gv2";
  }

  lemma TailUnique(h: Host, c: Call<string>, d: Call<string>)
    requires h.Valid() && PlainCall(c) && PlainCall(d) && c.target == d.target && TailTokens(h, c) == TailTokens(h, d)
    ensures c.graphMode == d.graphMode && c.graph == d.graph && c.quant == d.quant && c.tensors == d.tensors
  {
    var x2, y2 := QuantTokens(c.quant) + ViewsTokens(c.tensors), QuantTokens(d.quant) + ViewsTokens(d.tensors);
    ModeUnique(c.graphMode, d.graphMode, h.Tag(c.target), GraphTokens(c.graph) + x2, GraphTokens(d.graph) + y2);
    TailStart(c);
    TailStart(d);
    GraphUnique(c.graph, d.graph, x2, y2);
    QuantUnique(c.quant, d.quant, c.tensors, d.tensors);
    ViewsUnique(c.tensors, d.tensors);
  }

  lemma TailStart(c: Call<string>)
    ensures AtBar(QuantTokens(c.quant) + ViewsTokens(c.tensors))
  {
    if c.quant.Off? {
      assert QuantTokens(c.quant) + ViewsTokens(c.tensors) == ViewsTokens(c.tensors);
    }
  }

  // ---- every token can be read --------------------------------------------

  predicate PlainValues(vs: seq<Value>) {
    forall i :: 0 <= i < |vs| ==> Plain(vs[i].symbol)
  }

  lemma ValueHeadReadable(v: Value)
    requires Plain(v.symbol)
    ensures Readable(ValueHead(v))
  {
    EachReadable(ValueHead(v));
  }

  lemma AttrsHeadReadable(a: Attrs<string>)
    ensures Readable(AttrsHead(a))
  {
    match a
    case MatMul(_, _, _, _) => MatMulReadable(a);
    case Elementwise(_, _, _, _) => EachReadable(AttrsHead(a));
    case Transpose(_) => EachReadable(AttrsHead(a));
    case Cast(_, _) => EachReadable(AttrsHead(a));
    case Reduce(_, _, _, _) => ReduceReadable(a);
    case Softmax(_, _, _, _) => SoftmaxReadable(a);
    case Store(_, _) => EachReadable(AttrsHead(a));
  }

  lemma MatMulReadable(a: Attrs<string>)
    requires a.MatMul?
    ensures Readable(AttrsHead(a))
  {
    EachReadable(AttrsHead(a));
  }

  lemma ReduceReadable(a: Attrs<string>)
    requires a.Reduce?
    ensures Readable(AttrsHead(a))
  {
    var t := AttrsHead(a);
    assert t == t[..3] + t[3..];
    EachReadable(t[..3]);
    EachReadable(t[3..]);
    BothReadable(t[..3], t[3..]);
  }

  lemma SoftmaxReadable(a: Attrs<string>)
    requires a.Softmax?
    ensures Readable(AttrsHead(a))
  {
    var t := AttrsHead(a);
    assert t == t[..3] + t[3..];
    EachReadable(t[..3]);
    EachReadable(t[3..]);
    BothReadable(t[..3], t[3..]);
  }

  lemma NodeHeadReadable(n: Node<string>)
    ensures Readable(NodeHead(n)) && Readable(NodeMid(n))
  {
    EachReadable(NodeHead(n));
    EachReadable(NodeMid(n));
  }

  lemma ViewHeadReadable(v: View<string>)
    requires PlainView(v)
    ensures Readable(ViewHead(v)) && Readable(ViewQuant(v.quant))
  {
    EachReadable(ViewHead(v));
    EachReadable(ViewQuant(v.quant));
  }

  lemma GraphHeadReadable(g: Graph<string>)
    ensures Readable(GraphHead(g)) && Readable(NodesHead(g))
  {
    EachReadable(GraphHead(g));
    EachReadable(NodesHead(g));
  }

  lemma QuantReadable(q: Quantization<string>)
    requires PlainQuant(q)
    ensures Readable(QuantTokens(q))
  {
    EachReadable(QuantTokens(q));
  }

  lemma ModeReadable(graphMode: bool, tag: seq<string>)
    requires |tag| <= 1 && forall i :: 0 <= i < |tag| ==> Plain(tag[i])
    ensures Readable(ModeTokens(graphMode, tag))
  {
    EachReadable(ModeTokens(graphMode, tag));
  }

  lemma NumbersReadable(lead: Token, xs: seq<int>, rest: seq<Token>)
    requires IsDelimiter(lead.mark) && Plain(lead.word) && Readable(rest)
    ensures Readable(Numbers(lead, xs) + rest)
  {
    BothReadable([lead], ListTokens('=', ',', Decimals(xs), ""));
    BothReadable(Numbers(lead, xs), rest);
  }

  lemma ValueReadable(v: Value)
    requires Plain(v.symbol)
    ensures Readable(ValueTokens(v))
  {
    ValueHeadReadable(v);
    BothReadable(Flag(v.isOutput, "o"), Flag(v.isDevice, "dev"));
    BothReadable(Flag(v.isParameter, "p"), Flag(v.isOutput, "o") + Flag(v.isDevice, "dev"));
    NumbersReadable(Token(':', "t"), v.strides, ValueFlags(v));
    NumbersReadable(Token(':', "s"), v.shape, Numbers(Token(':', "t"), v.strides) + ValueFlags(v));
    BothReadable(ValueHead(v), ValueRest(v));
  }

  lemma {:induction false} ValuesReadable(vs: seq<Value>)
    requires PlainValues(vs)
    ensures Readable(ValuesTokens(vs))
  {
    if vs != [] {
      ValueReadable(vs[0]);
      ValuesReadable(vs[1..]);
      BothReadable(ValueTokens(vs[0]), ValuesTokens(vs[1..]));
    }
  }

  lemma AttrsReadable(a: Attrs<string>)
    requires PlainAttrs(a)
    ensures Readable(AttrsHead(a) + AttrsLists(a))
  {
    if a.Elementwise? {
      BothReadable([Token(',', "im")], ListTokens('=', '/', a.immediates, Bit(a.inplace)));
      BothReadable(ListTokens('=', '/', Decimals(a.inputs), ""),
                   [Token(',', "im")] + ListTokens('=', '/', a.immediates, Bit(a.inplace)));
    }
    AttrsHeadReadable(a);
    BothReadable(AttrsHead(a), AttrsLists(a));
  }

  lemma NodeReadable(n: Node<string>)
    requires PlainAttrs(n.attrs)
    ensures Readable(NodeTokens(n))
  {
    var attrs := AttrsHead(n.attrs) + AttrsLists(n.attrs);
    AttrsReadable(n.attrs);
    NodeHeadReadable(n);
    BothReadable(NodeMid(n), attrs);
    NumbersReadable(Token(':', "out"), n.outputs, NodeMid(n) + attrs);
    NumbersReadable(Token(':', "in"), n.inputs, Numbers(Token(':', "out"), n.outputs) + (NodeMid(n) + attrs));
    BothReadable(NodeHead(n), Numbers(Token(':', "in"), n.inputs) + (Numbers(Token(':', "out"), n.outputs) + (NodeMid(n) + attrs)));
  }

  lemma {:induction false} NodesReadable(ns: seq<Node<string>>)
    requires PlainNodes(ns)
    ensures Readable(NodesTokens(ns))
  {
    if ns != [] {
      NodeReadable(ns[0]);
      NodesReadable(ns[1..]);
      BothReadable(NodeTokens(ns[0]), NodesTokens(ns[1..]));
    }
  }

  lemma ViewReadable(v: View<string>)
    requires PlainView(v)
    ensures Readable(ViewTokens(v))
  {
    var rest := Flag(v.isDevice, "dev") + ViewQuant(v.quant);
    ViewHeadReadable(v);
    BothReadable(Flag(v.isDevice, "dev"), ViewQuant(v.quant));
    if |v.shape| >= 2 {
      DimsPlain(v.shape[0], v.shape[1]);
    }
    BothReadable(DimsTokens(v.shape), rest);
    BothReadable(ViewHead(v), DimsTokens(v.shape) + rest);
  }

  lemma DimsPlain(a: int, b: int)
    ensures Plain(Decimal(a) + "x" + Decimal(b))
  {
  }

  lemma {:induction false} ViewsReadable(vs: seq<View<string>>)
    requires forall i :: 0 <= i < |vs| ==> PlainView(vs[i])
    ensures Readable(ViewsTokens(vs))
  {
    if vs != [] {
      ViewReadable(vs[0]);
      ViewsReadable(vs[1..]);
      BothReadable(ViewTokens(vs[0]), ViewsTokens(vs[1..]));
    }
  }

  lemma GraphReadable(g: Graph<string>)
    requires PlainNodes(g.nodes) && PlainValues(g.values)
    ensures Readable(GraphTokens(g))
  {
    GraphHeadReadable(g);
    ValuesReadable(g.values);
    GraphRestReadable(g);
    BothReadable(ValuesTokens(g.values), GraphRest(g));
    BothReadable(GraphHead(g), ValuesTokens(g.values) + GraphRest(g));
  }

  lemma GraphRestReadable(g: Graph<string>)
    requires PlainNodes(g.nodes)
    ensures Readable(GraphRest(g))
  {
    GraphHeadReadable(g);
    NodesReadable(g.nodes);
    BothReadable(NodesHead(g), NodesTokens(g.nodes));
    IdListsReadable(g, NodesHead(g) + NodesTokens(g.nodes));
  }

  lemma IdListsReadable(g: Graph<string>, rest: seq<Token>)
    requires Readable(rest)
    ensures Readable(Numbers(Token('|', "iv"), g.inputs)
                     + (Numbers(Token('|', "ov"), g.outputs) + (Numbers(Token('|', "topo"), g.topo) + rest)))
  {
    NumbersReadable(Token('|', "topo"), g.topo, rest);
    NumbersReadable(Token('|', "ov"), g.outputs, Numbers(Token('|', "topo"), g.topo) + rest);
    NumbersReadable(Token('|', "iv"), g.inputs, Numbers(Token('|', "ov"), g.outputs) + (Numbers(Token('|', "topo"), g.topo) + rest));
  }

  lemma TailReadable(h: Host, c: Call<string>)
    requires h.Valid() && PlainCall(c)
    ensures Readable(TailTokens(h, c))
    ensures Flat(TailTokens(h, c)) != [] && Flat(TailTokens(h, c))[0] == '|'
  {
    GraphReadable(c.graph);
    ViewsReadable(c.tensors);
    var rest := QuantTokens(c.quant) + ViewsTokens(c.tensors);
    QuantReadable(c.quant);
    BothReadable(QuantTokens(c.quant), ViewsTokens(c.tensors));
    BothReadable(GraphTokens(c.graph), rest);
    ModeReadable(c.graphMode, h.Tag(c.target));
    BothReadable(ModeTokens(c.graphMode, h.Tag(c.target)), GraphTokens(c.graph) + rest);
    TailLead(c.graphMode, h.Tag(c.target), c.graph, rest);
  }

  lemma TailLead(graphMode: bool, tag: seq<string>, g: Graph<string>, rest: seq<Token>)
    requires PlainNodes(g.nodes)
    ensures var all := ModeTokens(graphMode, tag) + (GraphTokens(g) + rest);
            all != [] && all[0].mark == '|' && Flat(all) != [] && Flat(all)[0] == '|'
  {
    assert GraphTokens(g)[0] == GraphHead(g)[0];
  }

  // ---- the key determines what it shows -----------------------------------

  /** Two keys are equal exactly when everything they show is. */
  lemma KeyUnique(h: Host, c: Call<string>, d: Call<string>)
    requires h.Valid() && PlainCall(c) && PlainCall(d)
    ensures Key(h, c) == Key(h, d) <==> c == d
  {
    if Key(h, c) == Key(h, d) {
      var p, q := Flat(TailTokens(h, c)), Flat(TailTokens(h, d));
      TailReadable(h, c);
      TailReadable(h, d);
      WordEnds(c.name, d.name, "|target=" + (c.target + p), "|target=" + (d.target + q), {'|'});
      Cut("|target=", "|target=", c.target + p, d.target + q);
      WordEnds(c.target, d.target, p, q, {'|'});
      FlatUnique(TailTokens(h, c), TailTokens(h, d));
      TailUnique(h, c, d);
    }
  }

  function CallKey(h: Host, c: Call<real>): string
    requires h.Valid()
  {
    Key(h, Shown(h, c))
  }

  ghost predicate Nameable(h: Host, c: Call<real>) {
    PlainNames(Shown(h, c))
  }

  /** A tensor after the third leaves no trace in the key. */
  lemma FourthTensorNotShown(h: Host, c: Call<real>, v: View<real>)
    requires h.Valid() && |c.tensors| >= 3
    ensures CallKey(h, c.(tensors := c.tensors + [v])) == CallKey(h, c)
  {
    hide Key, PrintGraph;
    assert Shown(h, c.(tensors := c.tensors + [v])) == Shown(h, c);
  }

  // ---- what equal keys say about two calls --------------------------------

  predicate SameQuant(h: Host, p: Quantization<real>, q: Quantization<real>) {
    match (p, q)
    case (Off, Off) => true
    case (On(s, z), On(t, y)) => h.Text(s) == h.Text(t) && z == y
    case _ => false
  }

  /** Two tensors a key cannot tell apart: symbol, dtype, residency, quantization, and the first two dimensions if there
      are two. */
  predicate SameView(h: Host, v: View<real>, w: View<real>) {
    && v.symbol == w.symbol && v.dtype == w.dtype && v.isDevice == w.isDevice && SameQuant(h, v.quant, w.quant)
    && (|v.shape| >= 2 <==> |w.shape| >= 2)
    && (|v.shape| >= 2 ==> v.shape[0] == w.shape[0] && v.shape[1] == w.shape[1])
  }

  lemma PrintedViewUnique(h: Host, v: View<real>, w: View<real>)
    ensures PrintView(h, v) == PrintView(h, w) <==> SameView(h, v, w)
  {
    if |v.shape| >= 2 && |w.shape| >= 2 {
      assert v.shape[..2][0] == v.shape[0] && v.shape[..2][1] == v.shape[1];
      assert w.shape[..2][0] == w.shape[0] && w.shape[..2][1] == w.shape[1];
    }
    if |v.shape| >= 2 {
      assert |v.shape[..2]| == 2;
    }
    if |w.shape| >= 2 {
      assert |w.shape[..2]| == 2;
    }
  }

  /** As many tensors, up to three, none of the first three different. */
  ghost predicate SameTensors(h: Host, vs: seq<View<real>>, ws: seq<View<real>>) {
    && (|vs| == |ws| || (|vs| >= 3 && |ws| >= 3))
    && forall i :: 0 <= i < 3 && i < |vs| ==> SameView(h, vs[i], ws[i])
  }

  /** Two calls have one key exactly when name, target, mode, graph, quantization and the first three tensors are the
      same, as far as they are printed. */
  lemma CallKeysEqualIff(h: Host, c: Call<real>, d: Call<real>)
    requires h.Valid() && Nameable(h, c) && Nameable(h, d) && NoImmediates(c.graph) && NoImmediates(d.graph)
    ensures CallKey(h, c) == CallKey(h, d) <==>
              && (c.name == d.name || (c.name in {"", "matcore_kernel"} && d.name in {"", "matcore_kernel"}))
              && c.target == d.target && c.graphMode == d.graphMode && c.graph == d.graph
              && SameQuant(h, c.quant, d.quant) && SameTensors(h, c.tensors, d.tensors)
  {
    hide Key;
    ShownIsPlain(h, c);
    ShownIsPlain(h, d);
    KeyUnique(h, Shown(h, c), Shown(h, d));
    if PrintGraph(h, c.graph) == PrintGraph(h, d.graph) {
      PrintedGraphUnique(h, c.graph, d.graph);
    }
    hide PrintGraph, NoImmediates;
    ShownTensors(h, c, d);
    ShownQuant(h, c.quant, d.quant);
  }

  lemma ShownQuant(h: Host, p: Quantization<real>, q: Quantization<real>)
    ensures PrintQuant(h, p) == PrintQuant(h, q) <==> SameQuant(h, p, q)
  {
  }

  lemma ShownTensors(h: Host, c: Call<real>, d: Call<real>)
    ensures Shown(h, c).tensors == Shown(h, d).tensors <==> SameTensors(h, c.tensors, d.tensors)
  {
    hide PrintView, SameView;
    var s, t := Shown(h, c).tensors, Shown(h, d).tensors;
    forall i: nat | i < |s| && i < |t| ensures s[i] == t[i] <==> SameView(h, c.tensors[i], d.tensors[i]) {
      PrintedViewUnique(h, c.tensors[i], d.tensors[i]);
    }
    if s == t {
      assert |s| == |t|;
      forall i | 0 <= i < 3 && i < |c.tensors| ensures SameView(h, c.tensors[i], d.tensors[i]) {
        assert s[i] == t[i];
      }
    }
  }

  predicate NoImmediates(g: Graph<real>) {
    forall i :: 0 <= i < |g.nodes| ==> g.nodes[i].attrs.Elementwise? ==> g.nodes[i].attrs.immediates == []
  }

  /** Without floating-point immediates the printed graph is the graph. */
  lemma PrintedGraphUnique(h: Host, g: Graph<real>, k: Graph<real>)
    requires PrintGraph(h, g) == PrintGraph(h, k) && NoImmediates(g)
    ensures g == k
  {
    assert |g.nodes| == |PrintGraph(h, g).nodes| == |k.nodes|;
    forall i | 0 <= i < |g.nodes| ensures g.nodes[i] == k.nodes[i] {
      assert PrintGraph(h, g).nodes[i] == PrintGraph(h, k).nodes[i];
      PrintedNodeUnique(h, g.nodes[i], k.nodes[i]);
    }
  }

  lemma PrintedNodeUnique(h: Host, m: Node<real>, n: Node<real>)
    requires PrintNode(h, m) == PrintNode(h, n) && (m.attrs.Elementwise? ==> m.attrs.immediates == [])
    ensures m == n
  {
    if m.attrs.Elementwise? && n.attrs.Elementwise? {
      assert |PrintAttrs(h, n.attrs).immediates| == |n.attrs.immediates|;
    }
  }

  // ---- compiling ----------------------------------------------------------

  /** What the generated code is a function of. */
  datatype Unit = Unit(name: string, target: string, graphMode: bool, graph: Graph<real>, onDevice: seq<bool>)
  type Code = int
  datatype Outcome = Compiled(code: Code) | Rejected

  function OnDevice(ts: seq<View<real>>): seq<bool> {
    seq(|ts|, i requires 0 <= i < |ts| => ts[i].isDevice)
  }

  /** The emitters accept no tensors at all, or one for every input and one for the output. */
  predicate CountAccepted(c: Call<real>) {
    c.tensors == [] || |c.tensors| == |c.graph.inputs| + 1
  }

  function Compile(emit: Unit -> Outcome, c: Call<real>): Outcome {
    if !CountAccepted(c) then Rejected
    else emit(Unit(EffectiveName(c.name), c.target, c.graphMode, c.graph, OnDevice(c.tensors)))
  }

  /** Host and device tensors are not mixed in one call; callers are refused before the cache is asked. */
  predicate Uniform(c: Call<real>) {
    forall i :: 0 <= i < |c.tensors| ==> c.tensors[i].isDevice == c.tensors[0].isDevice
  }

  /** When a cached compilation is found under the call's key, it is what compiling afresh gives exactly when
      the call passes fewer than three tensors or the number the kernel takes: the key shows three. */
  lemma HitIsFreshIff(h: Host, emit: Unit -> Outcome, cached: Call<real>, c: Call<real>)
    requires h.Valid() && Nameable(h, cached) && Nameable(h, c) && Uniform(cached) && Uniform(c) && NoImmediates(c.graph)
    requires CallKey(h, cached) == CallKey(h, c) && Compile(emit, cached).Compiled?
    ensures Compile(emit, cached) == Compile(emit, c) <==> |c.tensors| < 3 || |c.tensors| == |c.graph.inputs| + 1
  {
    SameShown(h, cached, c);
    if |c.tensors| < 3 || |c.tensors| == |c.graph.inputs| + 1 {
      SameResidency(h, cached, c);
    }
  }

  /** A call with one tensor too many finds the code of the call without it, which compiling would refuse. */
  lemma HitWhereFreshRefuses(h: Host, emit: Unit -> Outcome, c: Call<real>, v: View<real>)
    requires h.Valid() && |c.graph.inputs| >= 2 && |c.tensors| == |c.graph.inputs| + 1
    ensures var more := c.(tensors := c.tensors + [v]);
            CallKey(h, more) == CallKey(h, c) && Compile(emit, more) == Rejected
  {
    FourthTensorNotShown(h, c, v);
  }

  lemma SameShown(h: Host, c: Call<real>, d: Call<real>)
    requires h.Valid() && Nameable(h, c) && Nameable(h, d) && NoImmediates(d.graph) && CallKey(h, c) == CallKey(h, d)
    ensures Shown(h, c) == Shown(h, d) && c.graph == d.graph && EffectiveName(c.name) == EffectiveName(d.name)
    ensures c.target == d.target && c.graphMode == d.graphMode
    ensures |c.tensors| == |d.tensors| || (|c.tensors| >= 3 && |d.tensors| >= 3)
  {
    ShownIsPlain(h, c);
    ShownIsPlain(h, d);
    KeyUnique(h, Shown(h, c), Shown(h, d));
    PrintedGraphUnique(h, d.graph, c.graph);
    assert |Shown(h, c).tensors| == |Shown(h, d).tensors|;
  }

  lemma SameResidency(h: Host, c: Call<real>, d: Call<real>)
    requires Shown(h, c) == Shown(h, d) && |c.tensors| == |d.tensors| && Uniform(c) && Uniform(d)
    ensures OnDevice(c.tensors) == OnDevice(d.tensors)
  {
    if c.tensors != [] {
      assert Shown(h, c).tensors[0] == Shown(h, d).tensors[0];
    }
  }
}
