/**
 * The closed set of NPC kinds and everything that is fixed per kind:
 * the movement and kill radii given by the per-type constructors, the
 * type name returned by getType, and which kind attacks which in fight.
 */
module Kinds {

  /** The three concrete subclasses of NPC. */
  datatype Species = Bear | Duck | Desman

  /** Largest offset per axis that one moveRandomly may draw. */
  function MoveDistanceOf(s: Species): nat
  {
    match s
    case Bear => 5
    case Duck => 50
    case Desman => 5
  }

  /** Radius of the Euclidean kill-range check. */
  function KillDistanceOf(s: Species): nat
  {
    match s
    case Bear => 10
    case Duck => 10
    case Desman => 20
  }

  /** The string getType returns; also the first token of a saved line. */
  function TypeName(s: Species): (t: string)
    ensures |t| > 0
  {
    match s
    case Bear => "Bear"
    case Duck => "Duck"
    case Desman => "Desman"
  }

  /** Each kind has its own name, so a saved type token identifies the kind. */
  lemma TypeNameInjective(s: Species, t: Species)
    ensures TypeName(s) == TypeName(t) <==> s == t
  {
    if s != t {
      assert TypeName(s)[1] != TypeName(t)[1] || TypeName(s)[0] != TypeName(t)[0];
    }
  }

  /**
   * Whether `fight` of an attacker of kind `attacker` goes on to the dice
   * contest against a live target of kind `target`: a Bear attacks Ducks
   * and Desmans, a Desman attacks Bears, a Duck attacks nobody.
   */
  predicate Attacks(attacker: Species, target: Species)
  {
    match attacker
    case Bear => target == Duck || target == Desman
    case Desman => target == Bear
    case Duck => false
  }

  /** No kind attacks its own kind, so a fight never targets its own attacker. */
  lemma AttacksIrreflexive(s: Species)
    ensures !Attacks(s, s)
  {
  }

  /** The Bear/Desman pair is the only one that attacks both ways; Ducks never attack. */
  lemma AttacksBothWays(a: Species, b: Species)
    ensures Attacks(a, b) && Attacks(b, a) <==> (a == Bear && b == Desman) || (a == Desman && b == Bear)
    ensures !Attacks(Duck, b)
  {
  }

  /** The letter printMap shows for a cell whose representative is of kind `s`. */
  function Glyph(s: Species): (c: char)
    ensures c != '.'
  {
    if TypeName(s) == "Bear" then 'B'
    else if TypeName(s) == "Duck" then 'D'
    else if TypeName(s) == "Desman" then 'S'
    else '.'
  }

  /** The map shows three different letters for the three kinds. */
  lemma GlyphInjective(s: Species, t: Species)
    ensures Glyph(s) == Glyph(t) <==> s == t
  {
  }
}
