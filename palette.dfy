/**
 * The colour-palette demo: the `#rrggbb` encoder behind `generateRandomColor`
 * and the `ColorPaletteGenerator` class with its five slots and lock set.
 *
 * `Math.random()` is replaced by its integer outcome: the colour of a slot is
 * determined by a draw `n` in [0, 16777215), the value of
 * `Math.floor(Math.random() * 16777215)`.
 */
module ColorPalette {
  import Strings

  const SlotCount: nat := 5
  /** The multiplier of `Math.random()`; draws lie in [0, ColorRange). */
  const ColorRange: nat := 16777215


  predicate IsHexDigit(c: char) {
    ('0' <= c <= '9') || ('a' <= c <= 'f')
  }

  function DigitChar(d: nat): (c: char)
    requires d < 16
    ensures IsHexDigit(c)
  {
    if d < 10 then ('0' as int + d) as char else ('a' as int + d - 10) as char
  }

  function DigitValue(c: char): (d: nat)
    requires IsHexDigit(c)
    ensures d < 16
  {
    if '0' <= c <= '9' then c as int - '0' as int else c as int - 'a' as int + 10
  }

  lemma DigitRoundTrip(d: nat)
    requires d < 16
    ensures DigitValue(DigitChar(d)) == d
  {
  }

  /** `n.toString(16)`: lowercase digits, no leading zero, "0" for zero. */
  function ToHex(n: nat): (r: string)
    ensures |r| >= 1
    ensures forall i :: 0 <= i < |r| ==> IsHexDigit(r[i])
    decreases n
  {
    if n < 16 then [DigitChar(n)] else ToHex(n / 16) + [DigitChar(n % 16)]
  }

  /** The value of a string of hex digits, most significant first. */
  function FromHex(s: string): nat
    requires forall i :: 0 <= i < |s| ==> IsHexDigit(s[i])
    decreases |s|
  {
    if s == [] then 0 else FromHex(s[..|s| - 1]) * 16 + DigitValue(s[|s| - 1])
  }

  function Pow16(k: nat): (p: nat)
    ensures p >= 1
  {
    if k == 0 then 1 else 16 * Pow16(k - 1)
  }

  /** Reading back the digits of `n` gives `n`. */
  lemma {:induction false} HexRoundTrip(n: nat)
    ensures FromHex(ToHex(n)) == n
    decreases n
  {
    var r := ToHex(n);
    if n < 16 {
      DigitRoundTrip(n);
    } else {
      HexRoundTrip(n / 16);
      assert r[..|r| - 1] == ToHex(n / 16);
      DigitRoundTrip(n % 16);
    }
  }

  /** A number below 16^k has at most k digits. */
  lemma {:induction false} ToHexLength(n: nat, k: nat)
    requires k >= 1 && n < Pow16(k)
    ensures |ToHex(n)| <= k
    decreases n
  {
    if n >= 16 {
      assert Pow16(1) == 16;
      assert n / 16 < Pow16(k - 1);
      ToHexLength(n / 16, k - 1);
    }
  }

  /** Leading zeros do not change the value. */
  lemma {:induction false} FromHexLeadingZeros(z: string, s: string)
    requires forall i :: 0 <= i < |z| ==> z[i] == '0'
    requires forall i :: 0 <= i < |s| ==> IsHexDigit(s[i])
    ensures FromHex(z + s) == FromHex(s)
    decreases |s|
  {
    if s == [] {
      assert z + s == z;
      FromHexZeros(z);
    } else {
      var t := z + s;
      assert t[..|t| - 1] == z + s[..|s| - 1];
      FromHexLeadingZeros(z, s[..|s| - 1]);
    }
  }

  lemma {:induction false} FromHexZeros(z: string)
    requires forall i :: 0 <= i < |z| ==> z[i] == '0'
    ensures FromHex(z) == 0
    decreases |z|
  {
    if z != [] {
      FromHexZeros(z[..|z| - 1]);
    }
  }

  /** What a palette slot holds: `#` and six lowercase hex digits. */
  predicate ValidColor(c: string) {
    |c| == 7 && c[0] == '#' && forall i :: 1 <= i < 7 ==> IsHexDigit(c[i])
  }

  /** `generateRandomColor` for the draw `n`. */
  function RandomColor(n: nat): (c: string)
    requires n < ColorRange
    ensures ValidColor(c)
    ensures FromHex(c[1..]) == n
  {
    var digits := ToHex(n);
    ToHexLength(n, 6);
    HexRoundTrip(n);
    PadHex(digits);
    var c := "#" + Strings.PadStart(digits, 6, '0');
    assert c[1..] == Strings.PadStart(digits, 6, '0');
    c
  }

  /** Padding at most six hex digits to six with `'0'` keeps them hex digits
      and keeps their value. */
  lemma PadHex(digits: string)
    requires |digits| <= 6 && forall i :: 0 <= i < |digits| ==> IsHexDigit(digits[i])
    ensures |Strings.PadStart(digits, 6, '0')| == 6
    ensures forall i :: 0 <= i < 6 ==> IsHexDigit(Strings.PadStart(digits, 6, '0')[i])
    ensures FromHex(Strings.PadStart(digits, 6, '0')) == FromHex(digits)
  {
    var p := Strings.PadStart(digits, 6, '0');
    var pad := p[..6 - |digits|];
    assert p == pad + digits;
    FromHexLeadingZeros(pad, digits);
    forall i | 0 <= i < 6 ensures IsHexDigit(p[i]) {
      if i >= 6 - |digits| { assert p[i] == digits[i - (6 - |digits|)]; }
    }
  }

  /** Distinct draws give distinct colours. */
  lemma RandomColorInjective(m: nat, n: nat)
    requires m < ColorRange && n < ColorRange && m != n
    ensures RandomColor(m) != RandomColor(n)
  {
  }

  /** The multiplier stops one short of 0xffffff, so white is never produced. */
  lemma NeverWhite(n: nat)
    requires n < ColorRange
    ensures RandomColor(n) != "#ffffff"
  {
    var w := "#ffffff";
    assert w[1..] == "ffffff";
    assert "f"[..0] == "" && FromHex("f") == 0xf;
    assert "ff"[..1] == "f" && FromHex("ff") == 0xff;
    assert "fff"[..2] == "ff" && FromHex("fff") == 0xfff;
    assert "ffff"[..3] == "fff" && FromHex("ffff") == 0xffff;
    assert "fffff"[..4] == "ffff" && FromHex("fffff") == 0xfffff;
    assert "ffffff"[..5] == "fffff" && FromHex("ffffff") == 0xffffff;
  }

  /** `this.lockedIndices.has(i) && this.colors[i]`: a locked slot whose
      colour exists and is not the empty string. */
  predicate Kept(colors: seq<string>, locked: set<int>, i: int) {
    i in locked && 0 <= i < |colors| && colors[i] != ""
  }

  predicate ValidDraws(draws: seq<nat>) {
    |draws| == SlotCount && forall i :: 0 <= i < |draws| ==> draws[i] < ColorRange
  }

  /** The palette `generatePalette` builds: slot i keeps its colour when kept,
      and otherwise takes the colour of draw i. */
  function NextPalette(colors: seq<string>, locked: set<int>, draws: seq<nat>): (r: seq<string>)
    requires ValidDraws(draws)
    ensures |r| == SlotCount
    ensures forall i :: 0 <= i < SlotCount && Kept(colors, locked, i) ==> r[i] == colors[i]
    ensures forall i :: 0 <= i < SlotCount && !Kept(colors, locked, i) ==> r[i] == RandomColor(draws[i])
  {
    seq(SlotCount, i requires 0 <= i < SlotCount =>
      if Kept(colors, locked, i) then colors[i] else RandomColor(draws[i]))
  }

  /** Valid colours stay valid: every slot of the new palette is a `#rrggbb`. */
  lemma NextPaletteValid(colors: seq<string>, locked: set<int>, draws: seq<nat>)
    requires ValidDraws(draws)
    requires forall i :: 0 <= i < |colors| && colors[i] != "" ==> ValidColor(colors[i])
    ensures forall i :: 0 <= i < SlotCount ==> ValidColor(NextPalette(colors, locked, draws)[i])
  {
    var r := NextPalette(colors, locked, draws);
    forall i | 0 <= i < SlotCount ensures ValidColor(r[i]) {
      if !Kept(colors, locked, i) {
        assert r[i] == RandomColor(draws[i]);
      }
    }
  }

  /** With every slot of a full palette locked, regeneration changes nothing;
      with no lock, the palette is the draws' colours whatever it was. */
  lemma AllLockedIsIdentity(colors: seq<string>, locked: set<int>, draws: seq<nat>)
    requires ValidDraws(draws) && |colors| == SlotCount
    requires forall i :: 0 <= i < SlotCount ==> colors[i] != "" && i in locked
    ensures NextPalette(colors, locked, draws) == colors
  {
  }

  lemma NoLockIgnoresOld(a: seq<string>, b: seq<string>, draws: seq<nat>)
    requires ValidDraws(draws)
    ensures NextPalette(a, {}, draws) == NextPalette(b, {}, draws)
  {
  }

  /** A kept colour survives any number of regenerations with the same locks. */
  lemma KeptSurvivesTwice(colors: seq<string>, locked: set<int>, d1: seq<nat>, d2: seq<nat>, i: int)
    requires ValidDraws(d1) && ValidDraws(d2)
    requires 0 <= i < SlotCount && Kept(colors, locked, i)
    ensures NextPalette(NextPalette(colors, locked, d1), locked, d2)[i] == colors[i]
  {
    var p := NextPalette(colors, locked, d1);
    assert p[i] == colors[i];
    assert Kept(p, locked, i);
  }

  /** `toggleLock(index)` on the set. */
  function Toggled(s: set<int>, index: int): (r: set<int>)
    ensures index in r <==> index !in s
    ensures forall j :: j != index ==> (j in r <==> j in s)
  {
    if index in s then s - {index} else s + {index}
  }

  lemma {:induction false} ToggleInvolution(s: set<int>, index: int)
    ensures Toggled(Toggled(s, index), index) == s
  {
    var r := Toggled(Toggled(s, index), index);
    forall j ensures j in r <==> j in s {
      if j == index {
        assert index in Toggled(s, index) <==> index !in s;
      }
    }
  }

  class ColorPaletteGenerator {
    var colors: seq<string>
    var lockedIndices: set<int>

    ghost predicate Valid()
      reads this
    {
      |colors| == SlotCount && forall i :: 0 <= i < |colors| ==> ValidColor(colors[i])
    }

    /** `constructor` followed by `init`: empty state, then a first palette. */
    constructor (draws: seq<nat>)
      requires ValidDraws(draws)
      ensures Valid()
      ensures lockedIndices == {}
      ensures colors == NextPalette([], {}, draws)
    {
      colors := [];
      lockedIndices := {};
      new;
      GeneratePalette(draws);
    }

    /** `generatePalette`: five slots, kept ones copied, the others drawn. */
    method GeneratePalette(draws: seq<nat>)
      requires ValidDraws(draws)
      requires forall i :: 0 <= i < |colors| && colors[i] != "" ==> ValidColor(colors[i])
      modifies this
      ensures Valid()
      ensures colors == NextPalette(old(colors), old(lockedIndices), draws)
      ensures lockedIndices == old(lockedIndices)
    {
      ghost var target := NextPalette(colors, lockedIndices, draws);
      var newColors: seq<string> := [];
      var i := 0;
      while i < SlotCount
        invariant 0 <= i <= SlotCount
        invariant newColors == target[..i]
      {
        assert target[..i + 1] == target[..i] + [target[i]];
        if Kept(colors, lockedIndices, i) {
          assert target[i] == colors[i];
          newColors := newColors + [colors[i]];
        } else {
          var c := RandomColor(draws[i]);
          assert target[i] == c;
          newColors := newColors + [c];
        }
        i := i + 1;
      }
      assert target[..SlotCount] == target;
      NextPaletteValid(colors, lockedIndices, draws);
      colors := newColors;
    }

    /** `toggleLock(index)`: only the membership of `index` flips. */
    method ToggleLock(index: int)
      modifies this
      ensures lockedIndices == Toggled(old(lockedIndices), index)
      ensures colors == old(colors)
    {
      if index in lockedIndices {
        lockedIndices := lockedIndices - {index};
      } else {
        lockedIndices := lockedIndices + {index};
      }
    }

    /** `unlockAll`: no lock left, colours untouched. */
    method UnlockAll()
      modifies this
      ensures lockedIndices == {}
      ensures colors == old(colors)
    {
      lockedIndices := {};
    }
  }
}
