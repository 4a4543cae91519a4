/** What a mutation can affect, as bits; some bits are evidence that a mutation cannot affect more. */
module Impacts {
  const STYLE: bv8 := 1
  const LAYOUT: bv8 := 2
  const INTRINSIC_SIZE: bv8 := 4
  const PAINT: bv8 := 8
  const STYLE_ONLY: bv8 := 16
  const TEXT_ONLY: bv8 := 32
  const LOCAL_CONTENT_ONLY: bv8 := 64
  const RESOURCE_ATTRIBUTE_ONLY: bv8 := 128

  predicate Carries(impact: bv8, bit: bv8) {
    impact & bit != 0
  }

  predicate IsEvidence(bit: bv8) {
    bit == STYLE_ONLY || bit == TEXT_ONLY || bit == LOCAL_CONTENT_ONLY || bit == RESOURCE_ATTRIBUTE_ONLY
  }

  predicate IsEffect(bit: bv8) {
    bit == STYLE || bit == LAYOUT || bit == INTRINSIC_SIZE || bit == PAINT
  }

  /** Evidence survives a union with nothing, or with what carries it too. */
  predicate Keeps(a: bv8, b: bv8, bit: bv8) {
    (Carries(a, bit) || Carries(b, bit)) && (a == 0 || Carries(a, bit)) && (b == 0 || Carries(b, bit))
  }

  /** A bit of evidence, if it survives. */
  function Shared(a: bv8, b: bv8, bit: bv8): bv8 {
    if Keeps(a, b, bit) then bit else 0
  }

  function Union(a: bv8, b: bv8): bv8 {
    ((a | b) & !(STYLE_ONLY | TEXT_ONLY | LOCAL_CONTENT_ONLY | RESOURCE_ATTRIBUTE_ONLY))
    | Shared(a, b, STYLE_ONLY) | Shared(a, b, TEXT_ONLY) | Shared(a, b, LOCAL_CONTENT_ONLY)
      | Shared(a, b, RESOURCE_ATTRIBUTE_ONLY)
  }

  /** An impact with some effect; evidence alone is not one. */
  predicate Real(impact: bv8) {
    impact & 0x0F != 0
  }

  const EFFECTS: bv8 := 0x0F
  const EVIDENCE: bv8 := 0xF0

  lemma OneBit(a: bv8, b: bv8, bit: bv8)
    requires a != 0 && b != 0 && IsEvidence(bit)
    ensures Shared(a, b, bit) == (a & b) & bit
  {
  }

  lemma Assembled(x: bv8, both: bv8)
    ensures x | (both & STYLE_ONLY) | (both & TEXT_ONLY) | (both & LOCAL_CONTENT_ONLY)
      | (both & RESOURCE_ATTRIBUTE_ONLY)
      == x | (both & EVIDENCE)
  {
  }

  /** Every effect of either and the evidence of both. */
  function JoinBits(a: bv8, b: bv8): bv8 {
    ((a | b) & EFFECTS) | ((a & b) & EVIDENCE)
  }

  /** Two pieces of different evidence without an effect: they leave nothing, as if neither had been there. */
  predicate Cancels(a: bv8, b: bv8) {
    a != 0 && b != 0 && !Real(a) && !Real(b) && a & b == 0
  }

  /** Two impacts that are not nothing are joined, unless they cancel. */
  lemma UnionBits(a: bv8, b: bv8)
    requires a != 0 && b != 0
    ensures Union(a, b) == JoinBits(a, b)
    ensures Union(a, b) == 0 <==> Cancels(a, b)
  {
    assert Union(a, b) == JoinBits(a, b) by {
      OneBit(a, b, STYLE_ONLY);
      OneBit(a, b, TEXT_ONLY);
      OneBit(a, b, LOCAL_CONTENT_ONLY);
      OneBit(a, b, RESOURCE_ATTRIBUTE_ONLY);
      hide Shared;
      assert !(STYLE_ONLY | TEXT_ONLY | LOCAL_CONTENT_ONLY | RESOURCE_ATTRIBUTE_ONLY) == EFFECTS;
      Assembled((a | b) & EFFECTS, a & b);
    }
    hide Union;
  }

  /** Between real impacts a union takes every effect of either and the evidence of both. */
  lemma UnionReal(a: bv8, b: bv8)
    requires Real(a) && Real(b)
    ensures Union(a, b) == ((a | b) & EFFECTS) | ((a & b) & EVIDENCE)
    ensures Real(Union(a, b))
  {
    UnionBits(a, b);
    hide Union;
  }

  lemma OneBitAlone(a: bv8, bit: bv8)
    requires IsEvidence(bit)
    ensures Shared(0, a, bit) == a & bit && Shared(a, 0, bit) == a & bit
  {
  }

  lemma UnionNothing(a: bv8)
    ensures Union(0, a) == a && Union(a, 0) == a
  {
    OneBitAlone(a, STYLE_ONLY);
    OneBitAlone(a, TEXT_ONLY);
    OneBitAlone(a, LOCAL_CONTENT_ONLY);
    OneBitAlone(a, RESOURCE_ATTRIBUTE_ONLY);
    hide Shared;
    assert !(STYLE_ONLY | TEXT_ONLY | LOCAL_CONTENT_ONLY | RESOURCE_ATTRIBUTE_ONLY) == EFFECTS;
    Assembled(a & EFFECTS, a);
    assert (a & EFFECTS) | (a & EVIDENCE) == a;
  }

  /** On real impacts, and on nothing at all, union is commutative, associative and idempotent. */
  lemma UnionLaws(a: bv8, b: bv8, c: bv8)
    requires (a == 0 || Real(a)) && (b == 0 || Real(b)) && (c == 0 || Real(c))
    ensures Union(a, b) == Union(b, a) && Union(a, a) == a
    ensures Union(Union(a, b), c) == Union(a, Union(b, c))
    ensures Union(a, b) == 0 || Real(Union(a, b))
  {
    hide Union;
    UnionNothing(a);
    UnionNothing(b);
    UnionNothing(c);
    UnionNothing(Union(a, b));
    UnionNothing(Union(b, c));
    if a != 0 {
      UnionReal(a, a);
      if b != 0 {
        UnionReal(a, b);
        UnionReal(b, a);
        if c != 0 {
          UnionReal(b, c);
          UnionReal(Union(a, b), c);
          UnionReal(a, Union(b, c));
        }
      }
    }
  }

  lemma JoinAssociates(a: bv8, b: bv8, c: bv8)
    ensures JoinBits(JoinBits(a, b), c) == JoinBits(a, JoinBits(b, c))
  {
  }

  lemma JoinCancelled(a: bv8, b: bv8, c: bv8)
    requires !Real(a) && !Real(b) && a & b == 0
    ensures JoinBits(a, JoinBits(b, c)) == c & EFFECTS && JoinBits(JoinBits(c, b), a) == c & EFFECTS
    ensures c & EFFECTS == c <==> c & EVIDENCE == 0
  {
  }

  /**
    * On arbitrary bits, exactly when the grouping of three does not matter: a cancelled pair must not
    * let the third one keep evidence that the other grouping takes away.
    */
  lemma AssociativeExactly(a: bv8, b: bv8, c: bv8)
    ensures Union(Union(a, b), c) == Union(a, Union(b, c)) <==>
      || a == 0 || c == 0
      || (if Cancels(a, b) then (if Cancels(b, c) then a == c else c & EVIDENCE == 0)
          else Cancels(b, c) ==> a & EVIDENCE == 0)
  {
    hide Union, JoinBits;
    UnionNothing(a);
    UnionNothing(b);
    UnionNothing(c);
    UnionNothing(Union(a, b));
    UnionNothing(Union(b, c));
    if a != 0 && b != 0 && c != 0 {
      UnionBits(a, b);
      UnionBits(b, c);
      if Cancels(a, b) {
        JoinCancelled(a, b, c);
      } else {
        UnionBits(Union(a, b), c);
      }
      if Cancels(b, c) {
        JoinCancelled(c, b, a);
      } else {
        UnionBits(a, Union(b, c));
      }
      JoinAssociates(a, b, c);
    }
  }

  // ---------- Mutations ----------

  datatype Mutation =
    | Attribute(name: string)
    | CharacterData
    | ChildList
    | TextChildren
    | Stylesheet
    | Viewport
    | State
    | PointerDesignation
    | StyleOverlay

  function Lower(s: string): (r: string)
    ensures |r| == |s|
  {
    seq(|s|, i requires 0 <= i < |s| => if 'A' <= s[i] <= 'Z' then s[i] + ' ' else s[i])
  }

  const RESOURCE_ATTRIBUTES: seq<string> := ["src", "srcset", "sizes", "width", "height"]

  const LOCAL_GRAPHICS_ATTRIBUTES: seq<string> :=
    ["d", "points", "x", "y", "x1", "x2", "y1", "y2", "cx", "cy", "r", "rx", "ry", "transform"]

  function ImpactOf(m: Mutation): bv8 {
    match m
    case PointerDesignation => STYLE
    case StyleOverlay => STYLE | LAYOUT | PAINT | STYLE_ONLY | LOCAL_CONTENT_ONLY
    case Attribute(name) =>
      var base := Union(Union(STYLE, LAYOUT), PAINT);
      var local := if Lower(name) in LOCAL_GRAPHICS_ATTRIBUTES then base | LOCAL_CONTENT_ONLY else base;
      if Lower(name) == "style" then local | STYLE_ONLY | LOCAL_CONTENT_ONLY
      else if Lower(name) in RESOURCE_ATTRIBUTES then Union(local, INTRINSIC_SIZE) | RESOURCE_ATTRIBUTE_ONLY
      else if Lower(name) == "value" then Union(local, INTRINSIC_SIZE)
      else local
    case CharacterData => Union(Union(LAYOUT, INTRINSIC_SIZE), PAINT)
    case TextChildren => STYLE | LAYOUT | INTRINSIC_SIZE | PAINT | TEXT_ONLY | LOCAL_CONTENT_ONLY
    case ChildList => Union(Union(Union(STYLE, LAYOUT), INTRINSIC_SIZE), PAINT)
    case Stylesheet => Union(Union(Union(STYLE, LAYOUT), INTRINSIC_SIZE), PAINT)
    case Viewport => Union(Union(STYLE, LAYOUT), PAINT)
    case State => Union(Union(STYLE, LAYOUT), PAINT)
  }

  /** The mutations that carry each kind of evidence. */
  predicate Proves(m: Mutation, bit: bv8) {
    if bit == STYLE_ONLY then m.StyleOverlay? || (m.Attribute? && Lower(m.name) == "style")
    else if bit == TEXT_ONLY then m.TextChildren?
    else if bit == LOCAL_CONTENT_ONLY then
      m.StyleOverlay? || m.TextChildren?
      || (m.Attribute? &&
          Lower(m.name) in ["style", "d", "points", "x", "y", "x1", "x2", "y1", "y2", "cx", "cy", "r", "rx", "ry",
                            "transform"])
    else m.Attribute? && Lower(m.name) in ["src", "srcset", "sizes", "width", "height"]
  }

  /** The mutations that have each effect. */
  predicate Affects(m: Mutation, bit: bv8) {
    if bit == STYLE then !m.CharacterData?
    else if bit == INTRINSIC_SIZE then
      m.CharacterData? || m.TextChildren? || m.ChildList? || m.Stylesheet?
      || (m.Attribute? && Lower(m.name) in ["src", "srcset", "sizes", "width", "height", "value"])
    else !m.PointerDesignation?
  }

  lemma AttributeListsApart()
    ensures forall name :: name in LOCAL_GRAPHICS_ATTRIBUTES ==> name !in RESOURCE_ATTRIBUTES && name != "value"
    ensures "style" !in RESOURCE_ATTRIBUTES
  {
  }

  lemma EffectUnions()
    ensures Union(Union(STYLE, LAYOUT), PAINT) == 11
    ensures Union(11, INTRINSIC_SIZE) == 15 && Union(11 | LOCAL_CONTENT_ONLY, INTRINSIC_SIZE) == 15
    ensures Union(Union(LAYOUT, INTRINSIC_SIZE), PAINT) == 14
    ensures Union(Union(Union(STYLE, LAYOUT), INTRINSIC_SIZE), PAINT) == 15
  {
  }

  lemma AttributeExact(name: string, bit: bv8)
    ensures Real(ImpactOf(Attribute(name)))
    ensures IsEvidence(bit) ==> (Carries(ImpactOf(Attribute(name)), bit) <==> Proves(Attribute(name), bit))
    ensures IsEffect(bit) ==> (Carries(ImpactOf(Attribute(name)), bit) <==> Affects(Attribute(name), bit))
  {
    AttributeListsApart();
    EffectUnions();
    hide Union, Lower;
    var local := Lower(name) in LOCAL_GRAPHICS_ATTRIBUTES;
    var style, resource := Lower(name) == "style", Lower(name) in RESOURCE_ATTRIBUTES;
    assert !(local && resource) && !(style && resource) && !(style && Lower(name) == "value");
  }

  /** Every mutation has exactly the effects listed, at least one, and carries exactly the evidence that holds of it. */
  lemma ImpactExact(m: Mutation, bit: bv8)
    ensures Real(ImpactOf(m))
    ensures IsEvidence(bit) ==> (Carries(ImpactOf(m), bit) <==> Proves(m, bit))
    ensures IsEffect(bit) ==> (Carries(ImpactOf(m), bit) <==> Affects(m, bit))
  {
    if m.Attribute? {
      AttributeExact(m.name, bit);
    } else {
      EffectUnions();
      hide Union;
    }
  }

  function Combined(mutations: seq<Mutation>): bv8 {
    if mutations == [] then 0 else Union(Combined(mutations[..|mutations| - 1]), ImpactOf(mutations[|mutations| - 1]))
  }

  lemma CarriesUnion(a: bv8, b: bv8, bit: bv8)
    requires (a == 0 || Real(a)) && Real(b)
    ensures IsEvidence(bit) ==> (Carries(Union(a, b), bit) <==> (a == 0 || Carries(a, bit)) && Carries(b, bit))
    ensures IsEffect(bit) ==> (Carries(Union(a, b), bit) <==> Carries(a, bit) || Carries(b, bit))
    ensures Real(Union(a, b))
  {
    if a == 0 {
      UnionNothing(b);
    } else {
      UnionReal(a, b);
    }
  }

  predicate AllProve(mutations: seq<Mutation>, bit: bv8) {
    forall i :: 0 <= i < |mutations| ==> Proves(mutations[i], bit)
  }

  predicate SomeCarries(mutations: seq<Mutation>, bit: bv8) {
    exists i :: 0 <= i < |mutations| && Carries(ImpactOf(mutations[i]), bit)
  }

  lemma OneMore(mutations: seq<Mutation>, bit: bv8)
    requires mutations != []
    ensures var n := |mutations| - 1;
      && (AllProve(mutations, bit) <==> AllProve(mutations[..n], bit) && Proves(mutations[n], bit))
      && (SomeCarries(mutations, bit) <==> SomeCarries(mutations[..n], bit) || Carries(ImpactOf(mutations[n]), bit))
  {
    hide Proves, Carries, ImpactOf;
    var n := |mutations| - 1;
    assert forall i :: 0 <= i < n ==> mutations[..n][i] == mutations[i];
    if SomeCarries(mutations[..n], bit) {
      var i :| 0 <= i < n && Carries(ImpactOf(mutations[..n][i]), bit);
      assert Carries(ImpactOf(mutations[i]), bit);
    }
  }

  lemma NothingCarried(bit: bv8)
    ensures !Carries(0, bit) && !Real(0)
  {
  }

  /**
    * Over any run of mutations evidence survives exactly when it holds of every one of them, and an
    * effect when some one has it.
    */
  lemma {:induction false} CombinedExact(mutations: seq<Mutation>, bit: bv8)
    requires mutations != []
    ensures Real(Combined(mutations))
    ensures IsEvidence(bit) ==> (Carries(Combined(mutations), bit) <==> AllProve(mutations, bit))
    ensures IsEffect(bit) ==> (Carries(Combined(mutations), bit) <==> SomeCarries(mutations, bit))
  {
    hide Union, ImpactOf, Proves, Carries, Real, AllProve, SomeCarries;
    var n := |mutations| - 1;
    NothingCarried(bit);
    if n > 0 {
      CombinedExact(mutations[..n], bit);
    } else {
      assert AllProve(mutations[..n], bit) && !SomeCarries(mutations[..n], bit) by { Vacuous(mutations[..n], bit); }
    }
    ImpactExact(mutations[n], bit);
    CarriesUnion(Combined(mutations[..n]), ImpactOf(mutations[n]), bit);
    OneMore(mutations, bit);
  }

  lemma Vacuous(mutations: seq<Mutation>, bit: bv8)
    requires mutations == []
    ensures AllProve(mutations, bit) && !SomeCarries(mutations, bit)
  {
  }
}
