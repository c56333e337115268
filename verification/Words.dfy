/** Bytes, 32-bit words, and words in a byte-addressed, little-endian memory. */
module Words {

  type Byte = x: int | 0 <= x < 256

  type Word = w: int | 0 <= w < 0x1_0000_0000

  const WORDS: int := 0x1_0000_0000

  /** Where the size table lies in memory. */
  const TABLE_START: nat := 0x7000_0000

  function ToWord(x: int): Word {
    x % WORDS
  }

  /** Byte i of a word, the lowest one first. */
  function ByteOf(w: Word, i: nat): Byte
    requires i < 4
  {
    if i == 0 then w % 0x100
    else if i == 1 then w / 0x100 % 0x100
    else if i == 2 then w / 0x1_0000 % 0x100
    else w / 0x100_0000
  }

  function WordAt(m: seq<Byte>, a: nat): Word
    requires a + 4 <= |m|
  {
    var (b0: int, b1: int, b2: int, b3: int) := (m[a], m[a + 1], m[a + 2], m[a + 3]);
    b0 + 0x100 * b1 + 0x1_0000 * b2 + 0x100_0000 * b3
  }

  ghost function Stored(m: seq<Byte>, a: nat, w: Word): (m': seq<Byte>)
    requires a + 4 <= |m|
    ensures |m'| == |m|
  {
    m[a := ByteOf(w, 0)][a + 1 := ByteOf(w, 1)][a + 2 := ByteOf(w, 2)][a + 3 := ByteOf(w, 3)]
  }

  lemma StoredBytes(m: seq<Byte>, a: nat, w: Word)
    requires a + 4 <= |m|
    ensures forall x | 0 <= x < |m| :: Stored(m, a, w)[x] == if a <= x < a + 4 then ByteOf(w, x - a) else m[x]
  {
  }

  lemma BytesOfWord(w: Word)
    ensures ByteOf(w, 0) + 0x100 * ByteOf(w, 1) + 0x1_0000 * ByteOf(w, 2) + 0x100_0000 * ByteOf(w, 3) == w
  {
  }

  /** A word that was stored is read back, and words beside it are not touched. */
  lemma StoredAt(m: seq<Byte>, a: nat, w: Word, b: nat)
    requires a + 4 <= |m| && b + 4 <= |m| && (b == a || b + 4 <= a || a + 4 <= b)
    ensures WordAt(Stored(m, a, w), b) == if b == a then w else WordAt(m, b)
  {
    hide ByteOf;
    BytesOfWord(w);
  }

  lemma SameWord(m: seq<Byte>, m': seq<Byte>, a: nat)
    requires a + 4 <= |m| == |m'| && forall x | a <= x < a + 4 :: m'[x] == m[x]
    ensures WordAt(m', a) == WordAt(m, a)
  {
  }

  /** The n cells from a on take the value v. */
  function Fill<T>(mem: map<nat, T>, a: nat, n: nat, v: T): (mem': map<nat, T>)
    ensures forall x: nat :: x in mem' <==> x in mem || a <= x < a + n
    ensures forall x | x in mem' :: mem'[x] == if a <= x < a + n then v else mem[x]
  {
    if n == 0 then mem else Fill(mem, a, n - 1, v)[a + n - 1 := v]
  }
}
