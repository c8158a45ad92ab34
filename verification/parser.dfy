/**
 The token filter of histoterm: every whitespace-separated token is handed to
 the f64 parser, and only the tokens that parse to a finite value become
 samples, in input order. The parser itself is a library routine and is
 taken here as a parameter `parse`.
 */
module Parser {

  datatype Option<+T> = None | Some(value: T)

  /** What the f64 parser yields for a token it accepts. */
  datatype F64 = Finite(value: real) | NaN | Infinite(negative: bool)

  /** The sample token `t` contributes, if any: the token must parse, and to a finite value. */
  function Accept(parse: string -> Option<F64>, t: string): (r: Option<real>)
    ensures r.Some? <==> parse(t).Some? && parse(t).value.Finite?
    ensures r.Some? ==> parse(t) == Some(Finite(r.value))
  {
    match parse(t)
    case Some(Finite(x)) => Some(x)
    case _ => None
  }

  /** The samples the filter keeps from `tokens`, built as the source builds them: by pushing. */
  function Samples(parse: string -> Option<F64>, tokens: seq<string>): (data: seq<real>)
    ensures |data| <= |tokens|
  {
    if |tokens| == 0 then []
    else
      var prefix := tokens[..|tokens| - 1];
      var last := tokens[|tokens| - 1];
      assert forall i :: 0 <= i < |prefix| ==> prefix[i] == tokens[i];
      match Accept(parse, last)
      case Some(x) => Samples(parse, prefix) + [x]
      case None => Samples(parse, prefix)
  }

  /** The positions of the tokens the filter keeps. */
  function Kept(parse: string -> Option<F64>, tokens: seq<string>): seq<nat> {
    if |tokens| == 0 then []
    else if Accept(parse, tokens[|tokens| - 1]).Some? then Kept(parse, tokens[..|tokens| - 1]) + [|tokens| - 1]
    else Kept(parse, tokens[..|tokens| - 1])
  }

  /**
   The k-th sample is the value of the token at position Kept(...)[k], the
   positions increase, and every token that parses to a finite value has its
   position listed. So the filter keeps exactly the finite tokens, in input
   order.
   */
  lemma {:induction false} KeptInOrder(parse: string -> Option<F64>, tokens: seq<string>)
    ensures var idx, data := Kept(parse, tokens), Samples(parse, tokens);
      && |idx| == |data|
      && (forall k :: 0 <= k < |idx| ==> idx[k] < |tokens| && Accept(parse, tokens[idx[k]]) == Some(data[k]))
      && (forall k, l :: 0 <= k < l < |idx| ==> idx[k] < idx[l])
      && (forall i :: 0 <= i < |tokens| && Accept(parse, tokens[i]).Some? ==> i in idx)
  {
    if |tokens| > 0 {
      var prefix := tokens[..|tokens| - 1];
      var last := tokens[|tokens| - 1];
      KeptInOrder(parse, prefix);
      var idx, data := Kept(parse, tokens), Samples(parse, tokens);
      var rest, before := Kept(parse, prefix), Samples(parse, prefix);
      assert forall i :: 0 <= i < |prefix| ==> prefix[i] == tokens[i];
      if Accept(parse, last).Some? {
        assert idx == rest + [|tokens| - 1];
        assert data == before + [Accept(parse, last).value];
        assert forall k :: 0 <= k < |rest| ==> idx[k] == rest[k] && data[k] == before[k];
        forall i | 0 <= i < |tokens| && Accept(parse, tokens[i]).Some?
          ensures i in idx
        {
          if i < |prefix| {
            assert i in rest;
          }
        }
      } else {
        assert idx == rest && data == before;
        forall i | 0 <= i < |tokens| && Accept(parse, tokens[i]).Some?
          ensures i in idx
        {
          assert i < |prefix|;
        }
      }
    }
  }

  /** A value is a sample exactly when some token parses to it. */
  lemma {:induction false} SamplesMembers(parse: string -> Option<F64>, tokens: seq<string>, x: real)
    ensures x in Samples(parse, tokens) <==> exists i :: 0 <= i < |tokens| && Accept(parse, tokens[i]) == Some(x)
  {
    var data := Samples(parse, tokens);
    var idx := Kept(parse, tokens);
    KeptInOrder(parse, tokens);
    if x in data {
      var k :| 0 <= k < |data| && data[k] == x;
      assert Accept(parse, tokens[idx[k]]) == Some(x);
    }
    if i :| 0 <= i < |tokens| && Accept(parse, tokens[i]) == Some(x) {
      var k :| 0 <= k < |idx| && idx[k] == i;
      assert data[k] == x;
    }
  }

  /** The filter comes back empty exactly when no token parses to a finite value. */
  lemma {:induction false} NoSamples(parse: string -> Option<F64>, tokens: seq<string>)
    ensures Samples(parse, tokens) == [] <==> forall i :: 0 <= i < |tokens| ==> Accept(parse, tokens[i]).None?
  {
    var idx := Kept(parse, tokens);
    KeptInOrder(parse, tokens);
    if i :| 0 <= i < |tokens| && Accept(parse, tokens[i]).Some? {
      assert i in idx;
    }
    if |idx| > 0 {
      assert Accept(parse, tokens[idx[0]]).Some?;
    }
  }

  /** Filtering a concatenation filters each part: the filter looks at one token at a time. */
  lemma {:induction false} SamplesAppend(parse: string -> Option<F64>, a: seq<string>, b: seq<string>)
    ensures Samples(parse, a + b) == Samples(parse, a) + Samples(parse, b)
    decreases |b|
  {
    if |b| == 0 {
      assert a + b == a;
    } else {
      var b' := b[..|b| - 1];
      assert (a + b)[..|a + b| - 1] == a + b';
      assert (a + b)[|a + b| - 1] == b[|b| - 1];
      SamplesAppend(parse, a, b');
    }
  }

  /** The token loop of the source, over the already split input. */
  method FilterTokens(parse: string -> Option<F64>, tokens: seq<string>) returns (data: seq<real>)
    ensures data == Samples(parse, tokens)
  {
    data := [];
    for i := 0 to |tokens|
      invariant data == Samples(parse, tokens[..i])
    {
      assert tokens[..i + 1][..i] == tokens[..i];
      match parse(tokens[i])
      case Some(x) =>
        if x.Finite? {
          data := data + [x.value];
        }
      case None =>
    }
    assert tokens[..|tokens|] == tokens;
  }
}
