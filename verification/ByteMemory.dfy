/** A byte-addressed memory and the 32-bit little-endian words stored in it. */
module ByteMemory {
  import opened Machine

  /** The 32-bit word stored at byte address p. */
  function Word(m: seq<Byte>, p: nat): (v: nat)
    requires p + 4 <= |m|
  {
    m[p] as int + 0x100 * m[p + 1] as int + 0x1_0000 * m[p + 2] as int + 0x100_0000 * m[p + 3] as int
  }

  /** The memory after storing the 32-bit word v at byte address p. */
  function PutWord(m: seq<Byte>, p: nat, v: nat): (r: seq<Byte>)
    requires p + 4 <= |m| && v < WORD_LIMIT
    ensures |r| == |m|
    ensures forall i :: 0 <= i < |m| && (i < p || p + 4 <= i) ==> r[i] == m[i]
  {
    m[p := v % 0x100][p + 1 := v / 0x100 % 0x100][p + 2 := v / 0x1_0000 % 0x100][p + 3 := v / 0x100_0000]
  }

  /** The four bytes of a word give it back. */
  lemma BytesOfWord(v: nat)
    requires v < WORD_LIMIT
    ensures v % 0x100 + 0x100 * (v / 0x100 % 0x100) + 0x1_0000 * (v / 0x1_0000 % 0x100) + 0x100_0000 * (v / 0x100_0000) == v
  {}

  /** Storing a word and loading it back gives the word; words that do not overlap are untouched. */
  lemma PutThenGet(m: seq<Byte>, p: nat, v: nat)
    requires p + 4 <= |m| && v < WORD_LIMIT
    ensures Word(PutWord(m, p, v), p) == v
    ensures forall q: nat {:trigger Word(PutWord(m, p, v), q)} ::
              q + 4 <= |m| && (q + 4 <= p || p + 4 <= q) ==> Word(PutWord(m, p, v), q) == Word(m, q)
  {
    BytesOfWord(v);
  }

  /** w[p] is the word that memory m stores at p, wherever a whole word fits. */
  ghost predicate Represents(m: seq<Byte>, w: seq<nat>) {
    |w| == |m| && forall p: nat {:trigger Word(m, p)} :: p + 4 <= |m| ==> w[p] == Word(m, p)
  }
}
