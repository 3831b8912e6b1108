/**
 * `hexitriplet` from tree_figs.py: '#' followed by each colour component
 * printed with the format spec `02X` (upper-case hexadecimal, zero-filled
 * to at least two digits).
 */
module HexColour {
  import opened Wrappers
  import opened Numerals

  function Components(colour: seq<int>): (s: string)
    ensures |s| >= 2 * |colour|
  {
    if colour == [] then "" else Format(colour[0], 2, 16) + Components(colour[1..])
  }

  /** `hexitriplet(colortuple)`. */
  function HexTriplet(colour: seq<int>): (s: string)
    ensures |s| >= 1 && s[0] == '#'
  {
    "#" + Components(colour)
  }

  predicate IsByte(v: int)
  {
    0 <= v < 256
  }

  lemma ByteField(v: int)
    requires IsByte(v)
    ensures |Format(v, 2, 16)| == 2 && ParseNat(Format(v, 2, 16), 16) == Some(v)
  {
    DigitCount(v, 16, 2);
    FormatLength(v, 2, 16);
    FormatParses(v, 2, 16);
  }

  /**
   * With every component a byte, each one contributes exactly two upper-case
   * hex digits, in input order, and the pair parses back to the component.
   */
  lemma {:induction false} ComponentsLayout(colour: seq<int>)
    requires forall i :: 0 <= i < |colour| ==> IsByte(colour[i])
    ensures |Components(colour)| == 2 * |colour|
    ensures forall k :: 0 <= k < |colour| ==>
      ParseNat(Components(colour)[2 * k..2 * k + 2], 16) == Some(colour[k])
  {
    if colour != [] {
      var head, rest := Format(colour[0], 2, 16), Components(colour[1..]);
      ByteField(colour[0]);
      ComponentsLayout(colour[1..]);
      forall k | 0 <= k < |colour|
        ensures ParseNat(Components(colour)[2 * k..2 * k + 2], 16) == Some(colour[k])
      {
        if k > 0 {
          assert Components(colour)[2 * k..2 * k + 2] == rest[2 * (k - 1)..2 * (k - 1) + 2];
        } else {
          assert Components(colour)[0..2] == head;
        }
      }
    }
  }

  /** The triplet of byte components: '#', then two hex digits per component that read back as it. */
  lemma HexTripletLayout(colour: seq<int>)
    requires forall i :: 0 <= i < |colour| ==> IsByte(colour[i])
    ensures |HexTriplet(colour)| == 1 + 2 * |colour|
    ensures forall k :: 0 <= k < |colour| ==>
      ParseNat(HexTriplet(colour)[1 + 2 * k..3 + 2 * k], 16) == Some(colour[k])
  {
    ComponentsLayout(colour);
    var s := HexTriplet(colour);
    forall k | 0 <= k < |colour|
      ensures ParseNat(s[1 + 2 * k..3 + 2 * k], 16) == Some(colour[k])
    {
      assert s[1 + 2 * k..3 + 2 * k] == Components(colour)[2 * k..2 * k + 2];
    }
  }

  /** The width in `02X` is a minimum: a component of 256 or more makes the text longer. */
  lemma {:induction false} WideComponentLengthens(colour: seq<int>, k: nat)
    requires k < |colour| && colour[k] >= 256
    ensures |HexTriplet(colour)| > 1 + 2 * |colour|
  {
    WideComponentsLengthen(colour, k);
  }

  lemma {:induction false} WideComponentsLengthen(colour: seq<int>, k: nat)
    requires k < |colour| && colour[k] >= 256
    ensures |Components(colour)| > 2 * |colour|
  {
    if k == 0 {
      DigitCount(colour[0], 16, 2);
      FormatLength(colour[0], 2, 16);
    } else {
      WideComponentsLengthen(colour[1..], k - 1);
    }
  }

  /** `c * 2` on a numpy array: every component doubled. */
  function Doubled(colour: seq<int>): (d: seq<int>)
    ensures |d| == |colour| && forall i :: 0 <= i < |d| ==> d[i] == 2 * colour[i]
  {
    seq(|colour|, i requires 0 <= i < |colour| => 2 * colour[i])
  }

  /** The script draws components from 0..124 and also uses their doubles: both always print as 7 characters. */
  lemma ScriptColoursHaveSevenCharacters(colour: seq<int>)
    requires |colour| == 3 && forall i :: 0 <= i < 3 ==> 0 <= colour[i] < 125
    ensures |HexTriplet(colour)| == 7 && |HexTriplet(Doubled(colour))| == 7
  {
    HexTripletLayout(colour);
    HexTripletLayout(Doubled(colour));
  }
}
