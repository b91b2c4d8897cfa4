/** The key as it is built, one append after another, and the cache of compilations kept under it. */
module KeyBuilder {
  import opened KeyText
  import opened CacheKey

  lemma Nest3<T>(t: seq<T>, a: seq<T>, b: seq<T>, c: seq<T>)
    ensures ((t + a) + b) + c == t + (a + (b + c))
  {
    Nest(t + a, b, c);
    Nest(t, a, b + c);
  }

  lemma Nest4<T>(t: seq<T>, a: seq<T>, b: seq<T>, c: seq<T>, d: seq<T>)
    ensures (((t + a) + b) + c) + d == t + (a + (b + (c + d)))
  {
    Nest((t + a) + b, c, d);
    Nest3(t, a, b, c + d);
  }

  lemma Nest5<T>(t: seq<T>, a: seq<T>, b: seq<T>, c: seq<T>, d: seq<T>, e: seq<T>)
    ensures ((((t + a) + b) + c) + d) + e == t + (a + (b + (c + (d + e))))
  {
    Nest(((t + a) + b) + c, d, e);
    Nest4(t, a, b, c, d + e);
  }

  /** `=`, each item with the separator after it, and the last word. */
  method ListText(sep: char, items: seq<string>, last: string) returns (text: string)
    requires IsDelimiter(sep) && Plain(last)
    requires forall i :: 0 <= i < |items| ==> Plain(items[i])
    ensures text == Flat(ListTokens('=', sep, items, last))
  {
    text := "=";
    assert [Token('=', "")][1..] == [];
    for i := 0 to |items|
      invariant text == Flat(ListTokens('=', sep, items[..i], ""))
    {
      ListGrows('=', sep, items[..i], items[i], "");
      assert items[..i + 1] == items[..i] + [items[i]];
      text := text + items[i] + [sep];
    }
    assert items[..|items|] == items;
    ListLast('=', sep, items, last);
    text := text + last;
  }

  class Key {
    var text: string
    ghost const start: string
    ghost var tokens: seq<Token>   // what was appended since start

    ghost predicate Valid()
      reads this
    {
      text == start + Flat(tokens)
    }

    constructor (name: string)
      ensures Valid() && text == start == name && tokens == []
    {
      text, start, tokens := name, name, [];
    }

    method Put(mark: char, word: string)
      requires Valid()
      modifies this
      ensures Valid() && tokens == old(tokens) + [Token(mark, word)]
    {
      FlatAppend(tokens, [Token(mark, word)]);
      assert Flat([Token(mark, word)]) == [mark] + word;
      Nest(start, Flat(tokens), [mark] + word);
      Nest(text, [mark], word);
      text := text + [mark] + word;
      tokens := tokens + [Token(mark, word)];
    }

    method PutWords(ts: seq<Token>)
      requires Valid()
      modifies this
      ensures Valid() && tokens == old(tokens) + ts
    {
      for i := 0 to |ts|
        invariant Valid() && tokens == old(tokens) + ts[..i]
      {
        Put(ts[i].mark, ts[i].word);
        assert ts[..i + 1] == ts[..i] + [ts[i]];
      }
    }

    method PutList(sep: char, items: seq<string>, last: string)
      requires Valid() && IsDelimiter(sep) && Plain(last)
      requires forall i :: 0 <= i < |items| ==> Plain(items[i])
      modifies this
      ensures Valid() && tokens == old(tokens) + ListTokens('=', sep, items, last)
    {
      var list := ListText(sep, items, last);
      FlatAppend(tokens, ListTokens('=', sep, items, last));
      Nest(start, Flat(tokens), list);
      text := text + list;
      tokens := tokens + ListTokens('=', sep, items, last);
    }

    method PutNumbers(mark: char, word: string, xs: seq<int>)
      requires Valid()
      modifies this
      ensures Valid() && tokens == old(tokens) + Numbers(Token(mark, word), xs)
    {
      Put(mark, word);
      PutList(',', Decimals(xs), "");
      Nest(old(tokens), [Token(mark, word)], ListTokens('=', ',', Decimals(xs), ""));
    }

    method PutFlag(on: bool, word: string)
      requires Valid()
      modifies this
      ensures Valid() && tokens == old(tokens) + Flag(on, word)
    {
      if on {
        Put(':', word);
      }
    }

    method PutValue(v: Value)
      requires Valid()
      modifies this
      ensures Valid() && tokens == old(tokens) + ValueTokens(v)
    {
      PutWords([Token(';', "v"), Token(':', v.symbol), Token(':', Decimal(v.dtype)),
                Token(':', Decimal(v.kind)), Token(':', Decimal(v.hint)), Token(':', Decimal(v.escape))]);
      assert tokens == old(tokens) + ValueHead(v);
      PutNumbers(':', "s", v.shape);
      PutNumbers(':', "t", v.strides);
      ghost var t := tokens;
      PutFlag(v.isParameter, "p");
      PutFlag(v.isOutput, "o");
      PutFlag(v.isDevice, "dev");
      Nest3(t, Flag(v.isParameter, "p"), Flag(v.isOutput, "o"), Flag(v.isDevice, "dev"));
      Nest4(old(tokens), ValueHead(v), Numbers(Token(':', "s"), v.shape), Numbers(Token(':', "t"), v.strides), ValueFlags(v));
    }

    method PutElementwise(h: Host, a: Attrs<real>)
      requires Valid() && h.Valid() && a.Elementwise?
      modifies this
      ensures Valid() && tokens == old(tokens) + (AttrsHead(PrintAttrs(h, a)) + AttrsLists(PrintAttrs(h, a)))
    {
      PutWords([Token('=', "1"), Token(':', "ew"), Token(':', Decimal(a.kind)), Token(',', "in")]);
      assert tokens == old(tokens) + AttrsHead(PrintAttrs(h, a));
      PutList('/', Decimals(a.inputs), "");
      Put(',', "im");
      var texts := seq(|a.immediates|, i requires 0 <= i < |a.immediates| => h.Text(a.immediates[i]));
      PutList('/', texts, Bit(a.inplace));
      Nest4(old(tokens), AttrsHead(PrintAttrs(h, a)), ListTokens('=', '/', Decimals(a.inputs), ""), [Token(',', "im")],
            ListTokens('=', '/', texts, Bit(a.inplace)));
    }

    method PutAttrs(h: Host, a: Attrs<real>)
      requires Valid() && h.Valid()
      modifies this
      ensures Valid() && tokens == old(tokens) + (AttrsHead(PrintAttrs(h, a)) + AttrsLists(PrintAttrs(h, a)))
    {
      match a
      case MatMul(lhs, rhs, acc, splitK) =>
        PutWords([Token('=', "0"), Token(':', "mm"), Token(':', Decimal(lhs.id)),
                  Token('/', Bit(lhs.transposed)), Token(',', Decimal(rhs.id)), Token('/', Bit(rhs.transposed)),
                  Token(',', Decimal(acc)), Token(',', Bit(splitK))]);
      case Elementwise(_, _, _, _) =>
        PutElementwise(h, a);
      case Transpose(input) =>
        PutWords([Token('=', "2"), Token(':', "tp"), Token(':', Decimal(input))]);
      case Cast(input, to) =>
        PutWords([Token('=', "3"), Token(':', "cast"), Token(':', Decimal(input)), Token(',', Decimal(to))]);
      case Reduce(kind, input, along, keepdim) =>
        PutWords([Token('=', "4"), Token(':', "red"), Token(':', Decimal(kind)), Token(',', Decimal(input)),
                  Token(',', Decimal(along)), Token(',', Bit(keepdim))]);
      case Softmax(input, axis, stable, causal) =>
        PutWords([Token('=', "5"), Token(':', "sm"), Token(':', Decimal(input)), Token(',', Decimal(axis)),
                  Token(',', Bit(stable)), Token(',', Bit(causal))]);
      case Store(input, output) =>
        PutWords([Token('=', "6"), Token(':', "st"), Token(':', Decimal(input)), Token(',', Decimal(output))]);
    }

    method PutNode(h: Host, n: Node<real>)
      requires Valid() && h.Valid()
      modifies this
      ensures Valid() && tokens == old(tokens) + NodeTokens(PrintNode(h, n))
    {
      ghost var m := PrintNode(h, n);
      PutWords([Token(';', "n"), Token(':', Decimal(n.id)), Token(':', Decimal(n.kind))]);
      assert tokens == old(tokens) + NodeHead(m);
      PutNumbers(':', "in", n.inputs);
      PutNumbers(':', "out", n.outputs);
      ghost var t := tokens;
      PutWords([Token(':', "sef"), Token('=', Bit(n.sideEffectFree)), Token(':', "attr")]);
      assert tokens == t + NodeMid(m);
      PutAttrs(h, n.attrs);
      Nest5(old(tokens), NodeHead(m), Numbers(Token(':', "in"), n.inputs), Numbers(Token(':', "out"), n.outputs), NodeMid(m),
            AttrsHead(m.attrs) + AttrsLists(m.attrs));
    }

    method PutValues(vs: seq<Value>)
      requires Valid()
      modifies this
      ensures Valid() && tokens == old(tokens) + ValuesTokens(vs)
    {
      for i := 0 to |vs|
        invariant Valid() && tokens == old(tokens) + ValuesTokens(vs[..i])
      {
        PutValue(vs[i]);
        ValuesStep(old(tokens), vs, i);
      }
      assert vs[..|vs|] == vs;
    }

    method PutNodes(h: Host, ns: seq<Node<real>>)
      requires Valid() && h.Valid()
      modifies this
      ensures Valid() && tokens == old(tokens) + NodesTokens(PrintNodes(h, ns))
    {
      hide NodeTokens;
      ghost var ms := PrintNodes(h, ns);
      for i := 0 to |ns|
        invariant Valid() && tokens == old(tokens) + NodesTokens(ms[..i])
      {
        PutNode(h, ns[i]);
        NodesStep(old(tokens), ms, i);
      }
      assert ms[..|ns|] == ms;
    }

    /** appendKernelStructure, for a graph kernel. */
    method PutGraph(h: Host, g: Graph<real>)
      requires Valid() && h.Valid()
      modifies this
      ensures Valid() && tokens == old(tokens) + GraphTokens(PrintGraph(h, g))
    {
      ghost var k := PrintGraph(h, g);
      PutWords([Token('|', "gv2"), Token('|', "nv"), Token('=', Decimal(|g.values|))]);
      assert tokens == old(tokens) + GraphHead(k);
      PutValues(g.values);
      ghost var t := tokens;
      PutNumbers('|', "iv", g.inputs);
      PutNumbers('|', "ov", g.outputs);
      PutNumbers('|', "topo", g.topo);
      PutWords([Token('|', "nn"), Token('=', Decimal(|g.nodes|))]);
      PutNodes(h, g.nodes);
      Nest5(t, Numbers(Token('|', "iv"), g.inputs), Numbers(Token('|', "ov"), g.outputs), Numbers(Token('|', "topo"), g.topo),
            NodesHead(k), NodesTokens(k.nodes));
      Nest3(old(tokens), GraphHead(k), ValuesTokens(g.values), GraphRest(k));
    }

    method PutView(h: Host, v: View<real>)
      requires Valid() && h.Valid()
      modifies this
      ensures Valid() && tokens == old(tokens) + ViewTokens(PrintView(h, v))
    {
      ghost var w := PrintView(h, v);
      PutWords([Token('|', v.symbol), Token(':', DTypeName(v.dtype))]);
      if |v.shape| >= 2 {
        Put(':', Decimal(v.shape[0]) + "x" + Decimal(v.shape[1]));
      }
      assert tokens == (old(tokens) + ViewHead(w)) + DimsTokens(w.shape);
      PutFlag(v.isDevice, "dev");
      ghost var t := tokens;
      if v.quant.On? {
        PutWords([Token(':', "q"), Token('=', h.Text(v.quant.scale)), Token(':', Decimal(v.quant.zero))]);
      }
      assert tokens == t + ViewQuant(w.quant);
      Nest4(old(tokens), ViewHead(w), DimsTokens(w.shape), Flag(w.isDevice, "dev"), ViewQuant(w.quant));
    }

    /** The first three tensors. */
    method PutViews(h: Host, c: Call<real>)
      requires Valid() && h.Valid()
      modifies this
      ensures Valid() && tokens == old(tokens) + ViewsTokens(Shown(h, c).tensors)
    {
      ghost var shown := Shown(h, c).tensors;
      for i := 0 to if |c.tensors| < 3 then |c.tensors| else 3
        invariant Valid() && tokens == old(tokens) + ViewsTokens(shown[..i])
      {
        PutView(h, c.tensors[i]);
        ViewsStep(old(tokens), shown, i);
      }
      assert shown[..|shown|] == shown;
    }
  }

  method BuildExecutionCacheKey(h: Host, c: Call<real>) returns (text: string)
    requires h.Valid()
    ensures text == CallKey(h, c)
  {
    hide GraphTokens, ViewsTokens, Flat;
    ghost var d := Shown(h, c);
    var key := new Key(EffectiveName(c.name) + "|target=" + c.target);
    if c.graphMode {
      key.Put('|', "graph_mode");
    }
    if h.Tag(c.target) != [] {
      key.Put('|', h.Tag(c.target)[0]);
    }
    assert key.tokens == ModeTokens(c.graphMode, h.Tag(c.target));
    key.PutGraph(h, c.graph);
    ghost var t := key.tokens;
    if c.quant.On? {
      key.PutWords([Token('|', "gq"), Token('=', h.Text(c.quant.scale)), Token(':', Decimal(c.quant.zero))]);
    }
    assert key.tokens == t + QuantTokens(d.quant);
    key.PutViews(h, c);
    Nest3(ModeTokens(c.graphMode, h.Tag(c.target)), GraphTokens(d.graph), QuantTokens(d.quant), ViewsTokens(d.tensors));
    Nest(d.name, "|target=", d.target);
    Nest3(d.name, "|target=", d.target, Flat(TailTokens(h, d)));
    text := key.text;
  }

  lemma EmptyRight<T>(a: seq<T>)
    ensures a + [] == a
  {
  }

  lemma TakeOneMore<T>(xs: seq<T>, i: nat)
    requires i < |xs|
    ensures xs[..i + 1] == xs[..i] + [xs[i]]
  {
  }

  lemma DropFirst<T>(xs: seq<T>, x: T)
    ensures if xs == [] then xs + [x] == [x] && (xs + [x])[1..] == [] else (xs + [x])[1..] == xs[1..] + [x]
  {
  }

  lemma {:induction false} ValuesGrow(vs: seq<Value>, v: Value)
    ensures ValuesTokens(vs + [v]) == ValuesTokens(vs) + ValueTokens(v)
  {
    DropFirst(vs, v);
    if vs == [] {
      EmptyRight(ValueTokens(v));
    } else {
      ValuesGrow(vs[1..], v);
      Nest(ValueTokens(vs[0]), ValuesTokens(vs[1..]), ValueTokens(v));
    }
  }

  lemma ValuesStep(t: seq<Token>, vs: seq<Value>, i: nat)
    requires i < |vs|
    ensures t + ValuesTokens(vs[..i + 1]) == (t + ValuesTokens(vs[..i])) + ValueTokens(vs[i])
  {
    TakeOneMore(vs, i);
    ValuesGrow(vs[..i], vs[i]);
    Nest(t, ValuesTokens(vs[..i]), ValueTokens(vs[i]));
  }

  lemma {:induction false} NodesGrow(ns: seq<Node<string>>, n: Node<string>)
    requires PlainNodes(ns) && PlainAttrs(n.attrs)
    ensures NodesTokens(ns + [n]) == NodesTokens(ns) + NodeTokens(n)
  {
    DropFirst(ns, n);
    if ns == [] {
      EmptyRight(NodeTokens(n));
    } else {
      NodesGrow(ns[1..], n);
      Nest(NodeTokens(ns[0]), NodesTokens(ns[1..]), NodeTokens(n));
    }
  }

  lemma NodesStep(t: seq<Token>, ns: seq<Node<string>>, i: nat)
    requires PlainNodes(ns) && i < |ns|
    ensures t + NodesTokens(ns[..i + 1]) == (t + NodesTokens(ns[..i])) + NodeTokens(ns[i])
  {
    TakeOneMore(ns, i);
    NodesGrow(ns[..i], ns[i]);
    Nest(t, NodesTokens(ns[..i]), NodeTokens(ns[i]));
  }

  lemma {:induction false} ViewsGrow(vs: seq<View<string>>, v: View<string>)
    ensures ViewsTokens(vs + [v]) == ViewsTokens(vs) + ViewTokens(v)
  {
    DropFirst(vs, v);
    if vs == [] {
      EmptyRight(ViewTokens(v));
    } else {
      ViewsGrow(vs[1..], v);
      Nest(ViewTokens(vs[0]), ViewsTokens(vs[1..]), ViewTokens(v));
    }
  }

  lemma ViewsStep(t: seq<Token>, vs: seq<View<string>>, i: nat)
    requires i < |vs|
    ensures t + ViewsTokens(vs[..i + 1]) == (t + ViewsTokens(vs[..i])) + ViewTokens(vs[i])
  {
    TakeOneMore(vs, i);
    ViewsGrow(vs[..i], vs[i]);
    Nest(t, ViewsTokens(vs[..i]), ViewTokens(vs[i]));
  }

  // ---- the cache ----------------------------------------------------------

  ghost predicate CompiledFor(h: Host, emit: Unit -> Outcome, key: string, code: Code, c: Call<real>)
    requires h.Valid()
  {
    Nameable(h, c) && Uniform(c) && CallKey(h, c) == key && Compile(emit, c) == Compiled(code)
  }

  ghost predicate AllCompiled(h: Host, emit: Unit -> Outcome, entries: map<string, Code>, origin: map<string, Call<real>>)
    requires h.Valid()
  {
    entries.Keys == origin.Keys && forall k :: k in entries ==> CompiledFor(h, emit, k, entries[k], origin[k])
  }

  lemma OneMoreCompiled(h: Host, emit: Unit -> Outcome, entries: map<string, Code>, origin: map<string, Call<real>>,
                        key: string, code: Code, c: Call<real>)
    requires h.Valid() && AllCompiled(h, emit, entries, origin) && CompiledFor(h, emit, key, code, c)
    ensures AllCompiled(h, emit, entries[key := code], origin[key := c])
  {
    hide CompiledFor;
  }

  predicate ShownEnough(c: Call<real>) {
    |c.tensors| < 3 || |c.tensors| == |c.graph.inputs| + 1
  }

  lemma HitIsFresh(h: Host, emit: Unit -> Outcome, key: string, code: Code, cached: Call<real>, c: Call<real>)
    requires h.Valid() && CompiledFor(h, emit, key, code, cached)
    requires Nameable(h, c) && Uniform(c) && CallKey(h, c) == key && NoImmediates(c.graph) && ShownEnough(c)
    ensures Compile(emit, c) == Compiled(code)
  {
    HitIsFreshIff(h, emit, cached, c);
  }

  /** Compilations by key. `origin` remembers the call each was compiled for. */
  class MemoryCache {
    var entries: map<string, Code>
    ghost var origin: map<string, Call<real>>

    ghost predicate Valid(h: Host, emit: Unit -> Outcome)
      reads this
    {
      h.Valid() && AllCompiled(h, emit, entries, origin)
    }

    constructor ()
      ensures entries == map[] && origin == map[]
    {
      entries, origin := map[], map[];
    }

    /** The code run for a call: the one found under its key unless recompiling is forced, otherwise a fresh
        one, which is then kept. A failed compilation keeps nothing. */
    method GetOrCreate(h: Host, emit: Unit -> Outcome, c: Call<real>, force: bool) returns (r: Outcome)
      requires Valid(h, emit) && Nameable(h, c) && Uniform(c)
      modifies this
      ensures Valid(h, emit)
      ensures force || CallKey(h, c) !in old(entries) ==> r == Compile(emit, c)
      ensures !force && CallKey(h, c) in old(entries) ==>
                r == Compiled(old(entries)[CallKey(h, c)]) && entries == old(entries)
      ensures NoImmediates(c.graph) && ShownEnough(c) ==> r == Compile(emit, c)
      ensures forall k :: k in old(entries) && (!force || k != CallKey(h, c)) ==> k in entries && entries[k] == old(entries)[k]
      ensures r.Compiled? ==> CallKey(h, c) in entries && entries[CallKey(h, c)] == r.code
      ensures r.Rejected? ==> entries == old(entries)
      ensures entries.Keys <= old(entries).Keys + {CallKey(h, c)}
    {
      hide ModeTokens, GraphTokens, QuantTokens, ViewsTokens, PrintGraph, PrintView, PlainNames, Flat;
      var key := BuildExecutionCacheKey(h, c);
      if !force && key in entries {
        if NoImmediates(c.graph) && ShownEnough(c) {
          HitIsFresh(h, emit, key, entries[key], origin[key], c);
        }
        return Compiled(entries[key]);
      }
      r := Compile(emit, c);
      if r.Compiled? {
        OneMoreCompiled(h, emit, entries, origin, key, r.code, c);
        entries, origin := entries[key := r.code], origin[key := c];
      }
    }
  }

  lemma {:induction false} ListLast(first: char, sep: char, items: seq<string>, last: string)
    requires IsDelimiter(first) && IsDelimiter(sep) && Plain(last)
    requires forall i :: 0 <= i < |items| ==> Plain(items[i])
    ensures Flat(ListTokens(first, sep, items, last)) == Flat(ListTokens(first, sep, items, "")) + last
    decreases |items|
  {
    if items == [] {
      assert [Token(first, last)][1..] == [] && [Token(first, "")][1..] == [];
    } else {
      ListLast(sep, sep, items[1..], last);
      var u, v := ListTokens(sep, sep, items[1..], last), ListTokens(sep, sep, items[1..], "");
      assert ([Token(first, items[0])] + u)[1..] == u && ([Token(first, items[0])] + v)[1..] == v;
    }
  }
}
