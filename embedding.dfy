/**
 * The embedding model, an external capability. It is a deterministic function
 * from one text to one vector of a fixed dimension; `Encode` is its batch form.
 */
module Embedding {
  import opened Strings

  type Vec = seq<real>

  datatype Embedder = Embedder(dim: nat, model: string -> Vec) {

    /** `get_dim()` is positive and every vector the model returns has that length. */
    ghost predicate Valid() {
      dim > 0 && forall t :: |model(t)| == dim
    }

    /** The vector of one text, after the blank-text placeholder is applied. */
    function Embed(t: string): Vec {
      model(Placeholder(t))
    }

    /** `encode(texts)`: one vector per text, in order. */
    function Encode(texts: seq<string>): (vs: seq<Vec>)
      ensures |vs| == |texts|
      ensures forall i :: 0 <= i < |texts| ==> vs[i] == Embed(texts[i])
    {
      seq(|texts|, i requires 0 <= i < |texts| => Embed(texts[i]))
    }

    lemma EncodeConcat(a: seq<string>, b: seq<string>)
      ensures Encode(a + b) == Encode(a) + Encode(b)
    {
    }
  }

  /** An empty or whitespace-only text is replaced by a single space before encoding. */
  function Placeholder(t: string): string {
    if Strip(t) == "" then " " else t
  }
}
