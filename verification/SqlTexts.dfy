/**
 SQL text with positional placeholders: what a text and an argument list mean together, and how
 meaning composes.
 */
module SqlTexts {
  import opened Texts
  import opened Decimals

  /** A rendered query: each placeholder replaced by the argument the database would bind to it. */
  datatype Piece<+A> = Lit(c: char) | Arg(a: A)

  function Holes(text: string): nat {
    if text == [] then 0 else (if text[0] == '?' then 1 else 0) + Holes(text[1..])
  }

  lemma {:induction false} NoMark(text: string)
    requires '?' !in text
    ensures Holes(text) == 0
  {
    if text != [] {
      NoMark(text[1..]);
    }
  }

  /** The j-th placeholder takes the j-th argument. */
  function Bind<A>(text: string, args: seq<A>): seq<Piece<A>>
    requires Holes(text) == |args|
    decreases |text|
  {
    if text == [] then []
    else if text[0] == '?' then [Arg(args[0])] + Bind(text[1..], args[1..])
    else [Lit(text[0])] + Bind(text[1..], args)
  }

  lemma {:induction false} HolesConcat(s: string, t: string)
    ensures Holes(s + t) == Holes(s) + Holes(t)
  {
    if s == [] {
      assert s + t == t;
    } else {
      assert (s + t)[1..] == s[1..] + t;
      HolesConcat(s[1..], t);
    }
  }

  /** Binding two texts one after the other binds each with its own arguments. */
  lemma {:induction false} BindConcat<A>(s: string, a: seq<A>, t: string, b: seq<A>)
    requires Holes(s) == |a| && Holes(t) == |b|
    ensures Holes(s + t) == |a + b|
    ensures Bind(s + t, a + b) == Bind(s, a) + Bind(t, b)
    decreases |s|
  {
    HolesConcat(s, t);
    if s == [] {
      assert s + t == t && a + b == b;
    } else {
      assert (s + t)[1..] == s[1..] + t;
      if s[0] == '?' {
        assert (a + b)[1..] == a[1..] + b;
        BindConcat(s[1..], a[1..], t, b);
      } else {
        BindConcat(s[1..], a, t, b);
      }
    }
  }

  /** Different arguments mean different queries. */
  lemma {:induction false} BindInjective<A>(text: string, a: seq<A>, b: seq<A>)
    requires Holes(text) == |a| == |b| && Bind(text, a) == Bind(text, b)
    ensures a == b
    decreases |text|
  {
    if text != [] {
      var rest := text[1..];
      if text[0] == '?' {
        assert Bind(text, a)[1..] == Bind(rest, a[1..]) && Bind(text, b)[1..] == Bind(rest, b[1..]);
        assert Bind(text, a)[0] == Bind(text, b)[0];
        BindInjective(rest, a[1..], b[1..]);
        assert a == [a[0]] + a[1..] && b == [b[0]] + b[1..];
      } else {
        assert Bind(text, a)[1..] == Bind(rest, a) && Bind(text, b)[1..] == Bind(rest, b);
        BindInjective(rest, a, b);
      }
    }
  }

  /** A text with its own arguments. */
  datatype Clause<+A> = Clause(text: string, args: seq<A>) {
    predicate Fits() {
      Holes(text) == |args|
    }
  }

  function ClauseTexts<A>(clauses: seq<Clause<A>>): seq<string> {
    if clauses == [] then [] else [clauses[0].text] + ClauseTexts(clauses[1..])
  }

  function Args<A>(clauses: seq<Clause<A>>): seq<A> {
    if clauses == [] then [] else clauses[0].args + Args(clauses[1..])
  }

  ghost predicate AllFit<A>(clauses: seq<Clause<A>>) {
    forall i :: 0 <= i < |clauses| ==> clauses[i].Fits()
  }

  /** Clauses bound one by one, with a separator in between. */
  function BoundJoin<A>(clauses: seq<Clause<A>>, sep: string): seq<Piece<A>>
    requires AllFit(clauses) && Holes(sep) == 0
  {
    if clauses == [] then []
    else if |clauses| == 1 then Bind(clauses[0].text, clauses[0].args)
    else Bind(clauses[0].text, clauses[0].args) + Bind(sep, []) + BoundJoin(clauses[1..], sep)
  }

  /** Joining texts and concatenating arguments is the same as binding clause by clause. */
  lemma {:induction false} BindJoin<A>(clauses: seq<Clause<A>>, sep: string)
    requires AllFit(clauses) && Holes(sep) == 0
    ensures Holes(Join(ClauseTexts(clauses), sep)) == |Args(clauses)|
    ensures Bind(Join(ClauseTexts(clauses), sep), Args(clauses)) == BoundJoin(clauses, sep)
    decreases |clauses|
  {
    if |clauses| == 1 {
      assert ClauseTexts(clauses) == [clauses[0].text];
      assert clauses[0].args + [] == clauses[0].args;
    } else if clauses != [] {
      var c, rest := clauses[0], clauses[1..];
      BindJoin(rest, sep);
      assert |ClauseTexts(rest)| > 0;
      assert ClauseTexts(clauses)[1..] == ClauseTexts(rest);
      BindConcat(c.text, c.args, sep, []);
      BindConcat(c.text + sep, c.args + [], Join(ClauseTexts(rest), sep), Args(rest));
      assert c.args + [] == c.args;
    }
  }

  lemma {:induction false} TextsSnoc<A>(clauses: seq<Clause<A>>, c: Clause<A>)
    ensures ClauseTexts(clauses + [c]) == ClauseTexts(clauses) + [c.text]
    ensures Args(clauses + [c]) == Args(clauses) + c.args
  {
    if clauses == [] {
      assert clauses + [c] == [c];
      assert c.args + [] == c.args;
    } else {
      assert (clauses + [c])[1..] == clauses[1..] + [c];
      TextsSnoc(clauses[1..], c);
    }
  }

  lemma {:induction false} NumbersHaveNoHoles(n: nat)
    ensures Holes(Itoa(n)) == 0
  {
    if n >= 10 {
      NumbersHaveNoHoles(n / 10);
      HolesConcat(Itoa(n / 10), [Digit(n % 10)]);
    }
  }

  /** `n` placeholders. */
  function Marks(n: nat): seq<string> {
    if n == 0 then [] else ["?"] + Marks(n - 1)
  }

  /** Placeholder by placeholder, each value is a clause of its own. */
  function Single<A>(values: seq<A>): seq<Clause<A>> {
    if values == [] then [] else [Clause("?", [values[0]])] + Single(values[1..])
  }

  lemma {:induction false} SingleFits<A>(values: seq<A>)
    ensures AllFit(Single(values)) && ClauseTexts(Single(values)) == Marks(|values|) && Args(Single(values)) == values
  {
    assert Holes("?") == 1;
    if values != [] {
      SingleFits(values[1..]);
      assert Single(values)[1..] == Single(values[1..]);
    }
  }

  /** The placeholders of a value list bind the values in order. */
  lemma MarksHoles<A>(values: seq<A>)
    ensures Holes(Join(Marks(|values|), ",")) == |values|
  {
    SingleFits(values);
    assert Holes(",") == 0;
    BindJoin(Single(values), ",");
  }
}
