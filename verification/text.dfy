/** Strings as the catalogue manipulates them: ASCII case folding and the
    substring test behind a case-insensitive `icontains` lookup, joining names
    with ", ", and splitting a name at its first space. */
module Text {

  predicate IsUpper(c: char) {
    'A' <= c <= 'Z'
  }

  /** Lower-cases an ASCII capital letter and leaves every other character alone. */
  function LowerChar(c: char): (r: char)
    ensures !IsUpper(r)
    ensures r != c ==> IsUpper(c) && r as int == c as int + ('a' as int - 'A' as int)
  {
    if IsUpper(c) then (c as int + ('a' as int - 'A' as int)) as char else c
  }

  function Lower(s: string): (r: string)
    ensures |r| == |s|
    ensures forall i :: 0 <= i < |r| ==> !IsUpper(r[i])
  {
    seq(|s|, i requires 0 <= i < |s| => LowerChar(s[i]))
  }

  /** Lower-casing twice is lower-casing once. */
  lemma LowerIdempotent(s: string)
    ensures Lower(Lower(s)) == Lower(s)
  {
  }

  // ---------------------------------------------------------------------------
  // Substrings

  /** `needle` occurs in `hay` starting at position `i`. */
  predicate OccursAt(hay: string, needle: string, i: int) {
    0 <= i && i + |needle| <= |hay| && hay[i..i + |needle|] == needle
  }

  ghost predicate Occurs(hay: string, needle: string) {
    exists i :: OccursAt(hay, needle, i)
  }

  /** Substring test that scans `hay` from the left, trying each start position. */
  function Contains(hay: string, needle: string): bool
    decreases |hay|
  {
    if needle <= hay then true
    else if |hay| == 0 then false
    else Contains(hay[1..], needle)
  }

  /** A successful scan has found a position where `needle` occurs. */
  lemma {:induction false} ContainsWitness(hay: string, needle: string) returns (i: nat)
    requires Contains(hay, needle)
    ensures OccursAt(hay, needle, i)
    decreases |hay|
  {
    if needle <= hay {
      i := 0;
    } else {
      var j := ContainsWitness(hay[1..], needle);
      i := j + 1;
      assert hay[1..][j..j + |needle|] == hay[i..i + |needle|];
    }
  }

  /** The scan does not miss an occurrence. */
  lemma {:induction false} OccursAtContains(hay: string, needle: string, i: int)
    requires OccursAt(hay, needle, i)
    ensures Contains(hay, needle)
    decreases |hay|
  {
    if !(needle <= hay) {
      assert i != 0;
      assert hay[1..][i - 1..i - 1 + |needle|] == hay[i..i + |needle|];
      OccursAtContains(hay[1..], needle, i - 1);
    }
  }

  lemma ContainsIffOccurs(hay: string, needle: string)
    ensures Contains(hay, needle) <==> Occurs(hay, needle)
  {
    if Contains(hay, needle) {
      var i := ContainsWitness(hay, needle);
    }
    if Occurs(hay, needle) {
      var i :| OccursAt(hay, needle, i);
      OccursAtContains(hay, needle, i);
    }
  }

  /** Case-insensitive containment: `needle` occurs in `hay` once both are lower-cased. */
  predicate IContains(hay: string, needle: string)
    ensures IContains(hay, needle) <==> Occurs(Lower(hay), Lower(needle))
  {
    ContainsIffOccurs(Lower(hay), Lower(needle));
    Contains(Lower(hay), Lower(needle))
  }

  // ---------------------------------------------------------------------------
  // Joining with ", " and splitting again

  const Separator: string := ", "

  /** The parts with ", " between consecutive ones. */
  function Join(parts: seq<string>): (r: string)
    ensures |parts| == 0 ==> r == ""
    ensures |parts| > 0 ==> parts[0] <= r
    decreases |parts|
  {
    if |parts| == 0 then ""
    else if |parts| == 1 then parts[0]
    else parts[0] + Separator + Join(parts[1..])
  }

  /** Cuts `s` at every ", ", scanning from the left. */
  function Split(s: string): (r: seq<string>)
    ensures |r| >= 1
    decreases |s|
  {
    if |s| < 2 then [s]
    else if s[..2] == Separator then [""] + Split(s[2..])
    else
      var rest := Split(s[1..]);
      [[s[0]] + rest[0]] + rest[1..]
  }

  predicate NoComma(parts: seq<string>) {
    forall i :: 0 <= i < |parts| ==> ',' !in parts[i]
  }

  lemma {:induction false} SplitWhole(a: string)
    requires ',' !in a
    ensures Split(a) == [a]
    decreases |a|
  {
    if |a| >= 2 {
      assert a[0] == a[..2][0];
      SplitWhole(a[1..]);
      assert [a[0]] + a[1..] == a;
    }
  }

  lemma {:induction false} SplitAfterPart(a: string, t: string)
    requires ',' !in a
    ensures Split(a + Separator + t) == [a] + Split(t)
    decreases |a|
  {
    var s := a + Separator + t;
    if |a| == 0 {
      assert s[..2] == Separator;
      assert s[2..] == t;
    } else {
      assert s[..2][0] == a[0];
      assert s[1..] == a[1..] + Separator + t;
      SplitAfterPart(a[1..], t);
      assert [s[0]] + a[1..] == a;
    }
  }

  /** Splitting undoes joining when no part contains a comma. */
  lemma {:induction false} SplitJoin(parts: seq<string>)
    requires |parts| >= 1 && NoComma(parts)
    ensures Split(Join(parts)) == parts
    decreases |parts|
  {
    if |parts| == 1 {
      SplitWhole(parts[0]);
    } else {
      assert ',' !in parts[0];
      SplitAfterPart(parts[0], Join(parts[1..]));
      SplitJoin(parts[1..]);
      assert [parts[0]] + parts[1..] == parts;
    }
  }

  // ---------------------------------------------------------------------------
  // Splitting at the first space

  /** The text before the first `c` and the text after it; the whole string
      and "" when `c` does not occur. */
  function Partition(s: string, c: char): (r: (string, string))
    ensures c !in r.0
    ensures c in s ==> |r.0| + 1 + |r.1| == |s|
    ensures c !in s ==> r == (s, "")
    decreases |s|
  {
    if |s| == 0 then ("", "")
    else if s[0] == c then ("", s[1..])
    else
      var rest := Partition(s[1..], c);
      assert s == [s[0]] + s[1..];
      ([s[0]] + rest.0, rest.1)
  }

  /** Partition recovers both halves when the first half has no `c`. */
  lemma {:induction false} PartitionJoin(a: string, c: char, b: string)
    requires c !in a
    ensures Partition(a + [c] + b, c) == (a, b)
    decreases |a|
  {
    var s := a + [c] + b;
    if |a| == 0 {
      assert s[1..] == b;
    } else {
      assert s[1..] == a[1..] + [c] + b;
      PartitionJoin(a[1..], c, b);
      assert [s[0]] + a[1..] == a;
    }
  }
}
