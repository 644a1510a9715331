/**
 * The public order id: three segments of 3, 4 and 3 characters drawn from two
 * 32-symbol alphabets and joined by '-'. The random choice of characters is
 * made explicit: a draw is the index sequence the random generator picked.
 */
module IdGenerator {

  /** The alphabet of the first and last segments. */
  const UpperAlphabet: string := "23456789ABCDEFGHJKLMNPQRSTUVWXYZ"
  /** The alphabet of the middle segment. */
  const LowerAlphabet: string := "23456789abcdefghijkmnpqrstuvwxyz"
  const Separator: char := '-'
  /** The characters the identifier is meant to avoid. */
  const Confusable: string := "01OIl"

  /** A position in either alphabet. */
  type Symbol = i: nat | i < 32

  /** One call's worth of random choices: the symbol positions of each segment. */
  datatype Draw = Draw(first: seq<Symbol>, middle: seq<Symbol>, last: seq<Symbol>)

  /** What the two generators guarantee: sizes 3, 4 and 3. */
  predicate WellSized(d: Draw) {
    |d.first| == 3 && |d.middle| == 4 && |d.last| == 3
  }

  type RandomDraw = d: Draw | WellSized(d) witness Draw([0, 0, 0], [0, 0, 0, 0], [0, 0, 0])

  /** The characters an alphabet assigns to a sequence of symbol positions. */
  function Spell(alphabet: string, symbols: seq<Symbol>): (s: string)
    requires |alphabet| == 32
    ensures |s| == |symbols|
    ensures forall k :: 0 <= k < |s| ==> s[k] == alphabet[symbols[k]]
  {
    seq(|symbols|, k requires 0 <= k < |symbols| => alphabet[symbols[k]])
  }

  /** The three segments of a draw, in order: 3 upper, 4 lower and 3 upper alphabet
      characters, none of them the separator. */
  function Segments(d: RandomDraw): (segs: seq<string>)
    ensures |segs| == 3
    ensures |segs[0]| == 3 && |segs[1]| == 4 && |segs[2]| == 3
    ensures forall c :: c in segs[0] || c in segs[2] ==> c in UpperAlphabet
    ensures forall c :: c in segs[1] ==> c in LowerAlphabet
    ensures forall k :: 0 <= k < 3 ==> Separator !in segs[k]
  {
    UpperAlphabetWellFormed();
    LowerAlphabetWellFormed();
    [Spell(UpperAlphabet, d.first), Spell(LowerAlphabet, d.middle), Spell(UpperAlphabet, d.last)]
  }

  /** `Array.prototype.join`. */
  function Join(parts: seq<string>, sep: char): string {
    if |parts| == 0 then ""
    else if |parts| == 1 then parts[0]
    else parts[0] + [sep] + Join(parts[1..], sep)
  }

  lemma JoinThree(parts: seq<string>, sep: char)
    requires |parts| == 3
    ensures Join(parts, sep) == parts[0] + [sep] + parts[1] + [sep] + parts[2]
  {
    assert parts[1..][1..] == [parts[2]];
    assert Join(parts[1..], sep) == parts[1] + [sep] + parts[2];
  }

  /** `String.prototype.split` on a single character: always at least one part. */
  function Split(s: string, sep: char): (parts: seq<string>)
    ensures |parts| >= 1
  {
    if |s| == 0 then [""]
    else if s[0] == sep then [""] + Split(s[1..], sep)
    else
      var rest := Split(s[1..], sep);
      [[s[0]] + rest[0]] + rest[1..]
  }

  /** `generateUniqueId`: the three segments of the draw joined by '-'. */
  function UniqueId(d: RandomDraw): (id: string)
    ensures |id| == 12
    ensures id[3] == Separator && id[8] == Separator
    ensures id[..3] == Segments(d)[0] && id[4..8] == Segments(d)[1] && id[9..] == Segments(d)[2]
    ensures forall k :: 0 <= k < 3 || 9 <= k < 12 ==> id[k] in UpperAlphabet
    ensures forall k :: 4 <= k < 8 ==> id[k] in LowerAlphabet
  {
    var segs := Segments(d);
    JoinThree(segs, Separator);
    Join(segs, Separator)
  }

  /** The character codes of an alphabet strictly increase. */
  predicate Ascending(alphabet: string) {
    forall k :: 0 < k < |alphabet| ==> alphabet[k - 1] < alphabet[k]
  }

  /** No character occurs twice. */
  predicate Distinct(alphabet: string) {
    forall i, j :: 0 <= i < j < |alphabet| ==> alphabet[i] != alphabet[j]
  }

  lemma {:induction false} AscendingBelow(alphabet: string, i: nat, j: nat)
    requires Ascending(alphabet)
    requires i < j < |alphabet|
    ensures alphabet[i] < alphabet[j]
  {
    if i + 1 < j {
      AscendingBelow(alphabet, i, j - 1);
    }
  }

  lemma AscendingDistinct(alphabet: string)
    requires Ascending(alphabet)
    ensures Distinct(alphabet)
  {
    forall i, j | 0 <= i < j < |alphabet|
      ensures alphabet[i] != alphabet[j]
    {
      AscendingBelow(alphabet, i, j);
    }
  }

  lemma UpperAscending()
    ensures Ascending(UpperAlphabet)
  {
  }

  lemma LowerAscending()
    ensures Ascending(LowerAlphabet)
  {
  }

  /** A character between two neighbours of an ascending alphabet (or below its first
      character, or above its last) does not occur in it. */
  lemma NotInGap(alphabet: string, k: int, c: char)
    requires Ascending(alphabet)
    requires -1 <= k < |alphabet|
    requires k >= 0 ==> alphabet[k] < c
    requires k + 1 < |alphabet| ==> c < alphabet[k + 1]
    ensures c !in alphabet
  {
    forall j | 0 <= j < |alphabet|
      ensures alphabet[j] != c
    {
      if j < k {
        AscendingBelow(alphabet, j, k);
      } else if j > k + 1 {
        AscendingBelow(alphabet, k + 1, j);
      }
    }
  }

  /** A character of neither alphabet: the separator and each confusable character. */
  predicate Excluded(c: char) {
    c == Separator || c in Confusable
  }

  /** The upper alphabet has 32 distinct characters, none of them excluded. */
  lemma UpperAlphabetWellFormed()
    ensures |UpperAlphabet| == 32 && Distinct(UpperAlphabet)
    ensures forall c :: Excluded(c) ==> c !in UpperAlphabet
  {
    var a := UpperAlphabet;
    UpperAscending();
    AscendingDistinct(a);
    assert a[0] == '2' && a[15] == 'H' && a[16] == 'J' && a[20] == 'N' && a[21] == 'P' && a[31] == 'Z';
    NotInGap(a, -1, '-');
    NotInGap(a, -1, '0');
    NotInGap(a, -1, '1');
    NotInGap(a, 15, 'I');
    NotInGap(a, 20, 'O');
    NotInGap(a, 31, 'l');
    assert forall c :: c in Confusable ==> c == '0' || c == '1' || c == 'O' || c == 'I' || c == 'l';
  }

  /** The lower alphabet has 32 distinct characters, none of them excluded. */
  lemma LowerAlphabetWellFormed()
    ensures |LowerAlphabet| == 32 && Distinct(LowerAlphabet)
    ensures forall c :: Excluded(c) ==> c !in LowerAlphabet
  {
    var a := LowerAlphabet;
    LowerAscending();
    AscendingDistinct(a);
    assert a[0] == '2' && a[7] == '9' && a[8] == 'a' && a[18] == 'k' && a[19] == 'm';
    NotInGap(a, -1, '-');
    NotInGap(a, -1, '0');
    NotInGap(a, -1, '1');
    NotInGap(a, 7, 'I');
    NotInGap(a, 7, 'O');
    NotInGap(a, 18, 'l');
    assert forall c :: c in Confusable ==> c == '0' || c == '1' || c == 'O' || c == 'I' || c == 'l';
  }

  /** An id contains no confusable character and exactly two separators, at 3 and 8. */
  lemma UniqueIdReadable(d: RandomDraw)
    ensures forall k :: 0 <= k < 12 ==> UniqueId(d)[k] !in Confusable
    ensures forall k :: 0 <= k < 12 ==> (UniqueId(d)[k] == Separator <==> k == 3 || k == 8)
  {
    UpperAlphabetWellFormed();
    LowerAlphabetWellFormed();
  }

  /** Splitting a string whose first `|p|` characters hold no separator. */
  lemma {:induction false} SplitPrefix(p: string, rest: string, sep: char)
    requires sep !in p
    ensures Split(p + rest, sep) == [p + Split(rest, sep)[0]] + Split(rest, sep)[1..]
  {
    if |p| > 0 {
      assert (p + rest)[1..] == p[1..] + rest;
      SplitPrefix(p[1..], rest, sep);
      assert [p[0]] + (p[1..] + Split(rest, sep)[0]) == p + Split(rest, sep)[0];
    } else {
      var r := Split(rest, sep);
      assert p + rest == rest;
      assert p + r[0] == r[0];
      assert [r[0]] + r[1..] == r;
    }
  }

  /** Splitting a join of separator-free parts gives the parts back. */
  lemma {:induction false} SplitJoin(parts: seq<string>, sep: char)
    requires |parts| >= 1
    requires forall k :: 0 <= k < |parts| ==> sep !in parts[k]
    ensures Split(Join(parts, sep), sep) == parts
  {
    if |parts| == 1 {
      SplitPrefix(parts[0], "", sep);
      assert parts[0] + "" == parts[0];
      assert Split("", sep) == [""];
      assert [parts[0] + ""] + [""][1..] == parts;
    } else {
      var tail := Join(parts[1..], sep);
      SplitJoin(parts[1..], sep);
      assert parts[0] + [sep] + tail == parts[0] + ([sep] + tail);
      SplitPrefix(parts[0], [sep] + tail, sep);
      assert ([sep] + tail)[1..] == tail;
      assert Split([sep] + tail, sep) == [""] + parts[1..];
      assert parts[0] + "" == parts[0];
      assert parts == [parts[0]] + parts[1..];
    }
  }

  /** Round trip: `id.split('-')` yields exactly the three generated segments. */
  lemma SplitUniqueId(d: RandomDraw)
    ensures Split(UniqueId(d), Separator) == Segments(d)
  {
    UpperAlphabetWellFormed();
    LowerAlphabetWellFormed();
    SplitJoin(Segments(d), Separator);
  }

  lemma LettersAt()
    ensures UpperAlphabet[18] == 'L' && LowerAlphabet[16] == 'i'
  {
  }

  /** The outer segments can contain an uppercase 'L' (position 18 of the upper
      alphabet), which the outer-segment pattern of the id tests allows, and the middle
      segment a lowercase 'i' (position 16 of the lower alphabet), which the
      middle-segment pattern of those tests does not allow. */
  lemma ConfusableLettersCanAppear(d: RandomDraw)
    requires d.first[0] == 18 && d.middle[0] == 16
    ensures UniqueId(d)[0] == 'L' && UniqueId(d)[4] == 'i'
  {
    var id := UniqueId(d);
    assert id[0] == id[..3][0] == Spell(UpperAlphabet, d.first)[0] == UpperAlphabet[18];
    assert id[4] == id[4..8][0] == Spell(LowerAlphabet, d.middle)[0] == LowerAlphabet[16];
    LettersAt();
  }

  /** The random source: `calls` draws have been consumed so far, and the next
      call spells draw number `calls`. */
  class IdGeneratorUtil {
    const source: nat -> RandomDraw
    var calls: nat

    constructor (source: nat -> RandomDraw)
      ensures this.source == source && calls == 0
    {
      this.source := source;
      calls := 0;
    }

    /** `generateUniqueId`: consumes one draw and returns its id. */
    method GenerateUniqueId() returns (id: string)
      modifies this
      ensures calls == old(calls) + 1
      ensures id == UniqueId(source(old(calls)))
    {
      id := UniqueId(source(calls));
      calls := calls + 1;
    }
  }
}
