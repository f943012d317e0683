/**
 The scalar field on Montgomery limbs as the parsers and the evaluator see it: its elements travel
 as the canonical byte strings of the field codec.
 */
module ScalarFieldCodec {
  import opened Wrappers
  import opened Bytes
  import opened Montgomery
  import opened ScalarField
  import opened ScalarFieldLaws
  import opened Fields
  import opened Expression

  /** Every theorem about encodable fields holds of the scalar field. */
  lemma ScalarsAreEncodable()
    requires IsPrime(MODULUS)
    ensures Encodable(Scalars())
  {
    hide Field.Valid, Field.Canonical, IsPrime, Pow256;
    ScalarsAreAField();
    ScalarsAreCanonical();
    Pow256Values();
    assert MODULUS <= R;
  }

  /** Reading and writing scalars in proofs, keys and bytecode is the field codec. */
  lemma CodecsAgree(b: Bytes32, a: Fr)
    ensures ScalarFromBytes(Scalars(), b) == FromBytes(b) && ScalarBytes(Scalars(), a) == ToBytes(a)
  {
    hide BeVal, BeBytes, ScalarField.Encode, ScalarField.Decode;
  }
}
