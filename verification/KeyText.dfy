/** Text as a list of words, each led by a delimiter: how an execution cache key can be read back. */
module KeyText {
  const DELIMITERS := {'|', ';', ':', '=', ',', '/'}

  predicate IsDelimiter(c: char) {
    c in DELIMITERS
  }

  predicate Plain(w: string) {
    Avoids(w, DELIMITERS)
  }

  datatype Token = Token(mark: char, word: string)

  predicate Readable(ts: seq<Token>) {
    ts == [] || (IsDelimiter(ts[0].mark) && Plain(ts[0].word) && Readable(ts[1..]))
  }

  function Flat(ts: seq<Token>): string {
    if ts == [] then "" else [ts[0].mark] + ts[0].word + Flat(ts[1..])
  }

  lemma Nest<T>(a: seq<T>, x: seq<T>, s: seq<T>)
    ensures (a + x) + s == a + (x + s)
  {
  }

  lemma {:induction false} FlatAppend(ts: seq<Token>, us: seq<Token>)
    ensures Flat(ts + us) == Flat(ts) + Flat(us)
  {
    if ts == [] {
      assert ts + us == us;
    } else {
      FlatAppend(ts[1..], us);
      assert (ts + us)[1..] == ts[1..] + us;
      Nest([ts[0].mark] + ts[0].word, Flat(ts[1..]), Flat(us));
    }
  }

  /** Concatenations agree piece by piece when the first pieces are equally long. */
  lemma Cut<T>(a: seq<T>, b: seq<T>, s: seq<T>, t: seq<T>)
    requires a + s == b + t && |a| == |b|
    ensures a == b && s == t
  {
    assert a == (a + s)[..|a|] == (b + t)[..|b|] == b;
    assert s == (a + s)[|a|..] == (b + t)[|b|..] == t;
  }

  lemma Clash<T>(a: seq<T>, b: seq<T>, s: seq<T>, t: seq<T>)
    requires a + s == b + t && |a| < |b|
    ensures s != [] && s[0] == b[|a|]
  {
    assert s[0] == (a + s)[|a|] == (b + t)[|a|];
  }

  predicate Avoids(w: string, stops: set<char>) {
    forall i :: 0 <= i < |w| ==> w[i] !in stops
  }

  /** A word ends where the text goes on with a character the word cannot contain, or stops. */
  lemma WordEnds(a: string, b: string, s: string, t: string, stops: set<char>)
    requires Avoids(a, stops) && Avoids(b, stops) && a + s == b + t
    requires s == [] || s[0] in stops
    requires t == [] || t[0] in stops
    ensures a == b && s == t
  {
    if |a| < |b| {
      Clash(a, b, s, t);
    } else if |b| < |a| {
      Clash(b, a, t, s);
    } else {
      Cut(a, b, s, t);
    }
  }

  lemma {:induction false} BothReadable(ts: seq<Token>, us: seq<Token>)
    requires Readable(ts) && Readable(us)
    ensures Readable(ts + us)
  {
    if ts == [] {
      assert ts + us == us;
    } else {
      BothReadable(ts[1..], us);
      assert (ts + us)[1..] == ts[1..] + us;
    }
  }

  lemma {:induction false} EachReadable(ts: seq<Token>)
    requires forall i :: 0 <= i < |ts| ==> IsDelimiter(ts[i].mark) && Plain(ts[i].word)
    ensures Readable(ts)
  {
    if ts != [] {
      EachReadable(ts[1..]);
    }
  }

  /** Two token lists with the same text are the same list. */
  lemma {:induction false} FlatUnique(ts: seq<Token>, us: seq<Token>)
    requires Readable(ts) && Readable(us) && Flat(ts) == Flat(us)
    ensures ts == us
  {
    if ts != [] && us != [] {
      var s, t := Flat(ts[1..]), Flat(us[1..]);
      assert Flat(ts) == [ts[0].mark] + (ts[0].word + s);
      assert Flat(us) == [us[0].mark] + (us[0].word + t);
      assert ts[0].mark == Flat(ts)[0] == us[0].mark;
      assert ts[0].word + s == Flat(ts)[1..] == us[0].word + t;
      WordEnds(ts[0].word, us[0].word, s, t, DELIMITERS);
      FlatUnique(ts[1..], us[1..]);
      assert ts == [ts[0]] + ts[1..] && us == [us[0]] + us[1..];
    }
  }

  predicate StartsWith(ts: seq<Token>, mark: char) {
    ts != [] && ts[0].mark == mark
  }

  // ---- numbers ------------------------------------------------------------

  function Digit(d: nat): char
    requires d < 10
  {
    '0' + d as char
  }

  function Digits(n: nat): (s: string)
    ensures |s| > 0 && forall i :: 0 <= i < |s| ==> '0' <= s[i] <= '9'
  {
    if n < 10 then [Digit(n)] else Digits(n / 10) + [Digit(n % 10)]
  }

  /** std::to_string of an integer. */
  function Decimal(n: int): (s: string)
    ensures Plain(s) && |s| > 0 && (s[0] == '-' || '0' <= s[0] <= '9') && 'x' !in s
  {
    if n < 0 then "-" + Digits(-n) else Digits(n)
  }

  lemma {:induction false} DigitsUnique(m: nat, n: nat)
    requires Digits(m) == Digits(n)
    ensures m == n
  {
    if m < 10 && n < 10 {
      assert Digits(m)[0] == Digits(n)[0];
    } else if m >= 10 && n >= 10 {
      Cut(Digits(m / 10), Digits(n / 10), [Digit(m % 10)], [Digit(n % 10)]);
      assert [Digit(m % 10)][0] == [Digit(n % 10)][0];
      DigitsUnique(m / 10, n / 10);
    }
  }

  lemma DecimalUnique(m: int, n: int)
    requires Decimal(m) == Decimal(n)
    ensures m == n
  {
    if m < 0 && n < 0 {
      Cut("-", "-", Digits(-m), Digits(-n));
      DigitsUnique(-m, -n);
    } else if m >= 0 && n >= 0 {
      DigitsUnique(m, n);
    }
    assert Decimal(m)[0] == Decimal(n)[0];
  }

  function Decimals(xs: seq<int>): (ss: seq<string>)
    ensures |ss| == |xs| && forall i :: 0 <= i < |xs| ==> ss[i] == Decimal(xs[i]) && Plain(ss[i])
  {
    seq(|xs|, i requires 0 <= i < |xs| => Decimal(xs[i]))
  }

  lemma DecimalsUnique(xs: seq<int>, ys: seq<int>)
    requires Decimals(xs) == Decimals(ys)
    ensures xs == ys
  {
    forall i | 0 <= i < |xs| ensures xs[i] == ys[i] {
      assert Decimals(xs)[i] == Decimals(ys)[i];
      DecimalUnique(xs[i], ys[i]);
    }
  }

  // ---- lists --------------------------------------------------------------

  /** A list printed as items each followed by `sep`, then `last`; `first` is the mark before it. */
  function ListTokens(first: char, sep: char, items: seq<string>, last: string): (ts: seq<Token>)
    requires IsDelimiter(first) && IsDelimiter(sep) && Plain(last)
    requires forall i :: 0 <= i < |items| ==> Plain(items[i])
    ensures Readable(ts) && ts != [] && ts[0].mark == first
    decreases |items|
  {
    if items == [] then [Token(first, last)]
    else [Token(first, items[0])] + ListTokens(sep, sep, items[1..], last)
  }

  lemma {:induction false} ListUnique(first: char, sep: char, xs: seq<string>, ys: seq<string>, a: string, b: string,
                                      s: seq<Token>, t: seq<Token>)
    requires IsDelimiter(first) && IsDelimiter(sep) && Plain(a) && Plain(b)
    requires (forall i :: 0 <= i < |xs| ==> Plain(xs[i])) && (forall i :: 0 <= i < |ys| ==> Plain(ys[i]))
    requires !StartsWith(s, sep) && !StartsWith(t, sep)
    requires ListTokens(first, sep, xs, a) + s == ListTokens(first, sep, ys, b) + t
    ensures xs == ys && a == b && s == t
    decreases |xs|
  {
    var x, y := ListRest(sep, xs, a) + s, ListRest(sep, ys, b) + t;
    ListHead(first, sep, xs, a, s);
    ListHead(first, sep, ys, b, t);
    assert xs == [] ==> x == s;
    assert ys == [] ==> y == t;
    assert x == y;
    if xs != [] && ys != [] {
      ListUnique(sep, sep, xs[1..], ys[1..], a, b, s, t);
      assert xs == [xs[0]] + xs[1..] && ys == [ys[0]] + ys[1..];
    }
  }

  /** What follows the first token of a list. */
  function ListRest(sep: char, items: seq<string>, last: string): seq<Token>
    requires IsDelimiter(sep) && Plain(last)
    requires forall i :: 0 <= i < |items| ==> Plain(items[i])
  {
    if items == [] then [] else ListTokens(sep, sep, items[1..], last)
  }

  lemma ListHead(first: char, sep: char, items: seq<string>, last: string, s: seq<Token>)
    requires IsDelimiter(first) && IsDelimiter(sep) && Plain(last)
    requires forall i :: 0 <= i < |items| ==> Plain(items[i])
    ensures (ListTokens(first, sep, items, last) + s)[0] == Token(first, if items == [] then last else items[0])
    ensures (ListTokens(first, sep, items, last) + s)[1..] == ListRest(sep, items, last) + s
  {
    var head := Token(first, if items == [] then last else items[0]);
    if items == [] {
      HeadTail(head, [], s);
    } else {
      HeadTail(head, ListTokens(sep, sep, items[1..], last), s);
    }
  }

  lemma HeadTail<T>(h: T, rest: seq<T>, s: seq<T>)
    ensures ([h] + rest + s)[0] == h && ([h] + rest + s)[1..] == rest + s
    ensures rest == [] ==> [h] + s == [h] + rest + s && rest + s == s
  {
  }

  /** Appending one more item and its separator to the text of a list. */
  lemma {:induction false} ListGrows(first: char, sep: char, xs: seq<string>, x: string, last: string)
    requires IsDelimiter(first) && IsDelimiter(sep) && Plain(x) && Plain(last)
    requires forall i :: 0 <= i < |xs| ==> Plain(xs[i])
    ensures Flat(ListTokens(first, sep, xs + [x], last)) == Flat(ListTokens(first, sep, xs, "")) + x + [sep] + last
    decreases |xs|
  {
    if xs == [] {
      assert xs + [x] == [x] && [x][1..] == [];
      assert ListTokens(first, sep, [x], last) == [Token(first, x), Token(sep, last)];
      assert [Token(first, x), Token(sep, last)][1..] == [Token(sep, last)];
      assert Flat([Token(sep, last)]) == [sep] + last;
      assert Flat([Token(first, "")]) == [first];
    } else {
      ListGrows(sep, sep, xs[1..], x, last);
      assert (xs + [x])[1..] == xs[1..] + [x];
      var u, v := ListTokens(sep, sep, xs[1..] + [x], last), ListTokens(sep, sep, xs[1..], "");
      assert ([Token(first, xs[0])] + u)[1..] == u && ([Token(first, xs[0])] + v)[1..] == v;
    }
  }
}
