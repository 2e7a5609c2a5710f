/** The actor reference that durable writes carry: never a key, never its fingerprint. */
module Actors {
  import opened Framing
  import opened Tokens
  import Descriptor
  import opened DescriptorFields

  const U32_MAX: nat := 0xFFFF_FFFF

  /** The live capability under which a write was authorised. */
  datatype Actor = Actor(capability: Text, scope: Text, generation: nat, issuer: Text)

  predicate ActorOk(a: Actor)
  {
    IsToken(a.capability) && IsToken(a.scope) && IsToken(a.issuer) && 0 < a.generation <= U32_MAX
  }

  function ActorReference(a: Actor): Text
    requires ActorOk(a)
  {
    "capability=" + Escaped(a.capability) + ";scope=" + Escaped(a.scope) + ";capgen="
    + Decimal(a.generation) + ";issuer=" + Escaped(a.issuer)
  }

  lemma U32Digits(n: nat)
    requires n <= U32_MAX
    ensures |Decimal(n)| <= 10
  {
    hide Decimal;
    assert PowerOfTen(5) == 100000;
    assert PowerOfTen(10) == 10000000000;
    DecimalLength(n, 10);
  }

  /** A reference is short: three tokens, one number and their keys. */
  lemma ActorReferenceFits(a: Actor)
    requires ActorOk(a)
    ensures |ActorReference(a)| <= 428
  {
    hide Decimal;
    Descriptor.TokenIsPlain(a.capability);
    Descriptor.TokenIsPlain(a.scope);
    Descriptor.TokenIsPlain(a.issuer);
    U32Digits(a.generation);
  }
}
