/**
 * The store's identifier generator `uuidV4`: 36 random nibbles, of which the
 * version position is forced to 4, the variant position gets bit 2 cleared and
 * bit 3 set, and four positions become dashes; each remaining cell is written
 * as one lower-case hexadecimal digit.
 *
 * `Math.random` is not modelled: the 36 nibbles are a parameter.
 */
module Uuid {

  /** A cell of the working array: a number 0..15 or the dash written over it. */
  datatype Cell = Nibble(n: bv4) | Dash

  /** Positions overwritten with `'-'`. */
  predicate IsDashPosition(i: int) {
    i == 8 || i == 13 || i == 18 || i == 23
  }

  const VersionPosition := 14
  const VariantPosition := 19

  /** `n.toString(16)` for a single nibble. */
  function HexDigit(n: bv4): (c: char)
    ensures IsHexDigit(c)
  {
    if n < 10 then ('0' as int + n as int) as char
    else ('a' as int + n as int - 10) as char
  }

  /** Lower-case hexadecimal digit. */
  predicate IsHexDigit(c: char) {
    '0' <= c <= '9' || 'a' <= c <= 'f'
  }

  /** Reads back the nibble a lower-case hexadecimal digit stands for. */
  function HexValue(c: char): (n: bv4)
    requires IsHexDigit(c)
    ensures HexDigit(n) == c
  {
    if c <= '9' then (c as int - '0' as int) as bv4
    else (c as int - 'a' as int + 10) as bv4
  }

  /** The variant nibble: `n & ~(1 << 2)` then `| (1 << 3)`. */
  function VariantNibble(n: bv4): bv4 {
    (n & !(1 << 2)) | (1 << 3)
  }

  /** The variant nibble is 8, 9, a or b and keeps the two low bits of the random nibble. */
  lemma VariantNibbleRange(n: bv4)
    ensures 8 <= VariantNibble(n) as int <= 11
    ensures VariantNibble(n) & 3 == n & 3
  {
  }

  /** The cell at position `i` once all the fixed positions are written. */
  function FinalCell(nibbles: seq<bv4>, i: nat): Cell
    requires |nibbles| == 36 && i < 36
  {
    if IsDashPosition(i) then Dash
    else if i == VersionPosition then Nibble(4)
    else if i == VariantPosition then Nibble(VariantNibble(nibbles[i]))
    else Nibble(nibbles[i])
  }

  /** `x.toString(16)` of one cell. */
  function Render(c: Cell): char {
    match c
    case Dash => '-'
    case Nibble(n) => HexDigit(n)
  }

  /** The string `uuidV4` returns for the given random nibbles. */
  function FormatUuid(nibbles: seq<bv4>): (id: string)
    requires |nibbles| == 36
    ensures |id| == 36
  {
    seq(36, i requires 0 <= i < 36 => Render(FinalCell(nibbles, i)))
  }

  /** The textual shape of a version-4 identifier as `uuidV4` writes it. */
  predicate IsUuidV4(s: string) {
    && |s| == 36
    && (forall i :: 0 <= i < 36 && IsDashPosition(i) ==> s[i] == '-')
    && s[VersionPosition] == '4'
    && s[VariantPosition] in "89ab"
    && (forall i :: 0 <= i < 36 && !IsDashPosition(i) ==> IsHexDigit(s[i]))
  }

  /** Every formatted identifier has the version-4 shape. */
  lemma FormatUuidIsV4(nibbles: seq<bv4>)
    requires |nibbles| == 36
    ensures IsUuidV4(FormatUuid(nibbles))
  {
    var id := FormatUuid(nibbles);
    var v := VariantNibble(nibbles[VariantPosition]);
    VariantNibbleRange(nibbles[VariantPosition]);
    assert id[VariantPosition] == HexDigit(v);
    assert v == 8 || v == 9 || v == 10 || v == 11;
  }

  /** Every random nibble that is not overwritten can be read back from the identifier. */
  lemma NibblesRecoverable(nibbles: seq<bv4>, i: nat)
    requires |nibbles| == 36 && i < 36
    requires !IsDashPosition(i) && i != VersionPosition && i != VariantPosition
    ensures IsHexDigit(FormatUuid(nibbles)[i]) && HexValue(FormatUuid(nibbles)[i]) == nibbles[i]
  {
    HexDigitInjective(HexValue(FormatUuid(nibbles)[i]), nibbles[i]);
  }

  lemma HexDigitInjective(m: bv4, n: bv4)
    requires HexDigit(m) == HexDigit(n)
    ensures m == n
  {
  }

  /**
   * `uuidV4`: fill an array of 36 cells with the random nibbles, overwrite the
   * version, variant and dash positions, then join the hexadecimal renderings.
   */
  method UuidV4(nibbles: seq<bv4>) returns (id: string)
    requires |nibbles| == 36
    ensures id == FormatUuid(nibbles)
    ensures IsUuidV4(id)
  {
    var uuid := new Cell[36](_ => Dash);
    for i := 0 to 36
      invariant forall k :: 0 <= k < i ==> uuid[k] == Nibble(nibbles[k])
    {
      uuid[i] := Nibble(nibbles[i]);
    }
    uuid[VersionPosition] := Nibble(4);
    uuid[VariantPosition] := Nibble(VariantNibble(uuid[VariantPosition].n));
    uuid[8], uuid[13], uuid[18], uuid[23] := Dash, Dash, Dash, Dash;
    id := [];
    for i := 0 to 36
      invariant |id| == i
      invariant forall k :: 0 <= k < i ==> id[k] == Render(uuid[k])
    {
      id := id + [Render(uuid[i])];
    }
    assert forall k :: 0 <= k < 36 ==> uuid[k] == FinalCell(nibbles, k);
    FormatUuidIsV4(nibbles);
  }
}
