/** Percent-escapes on bytes, as sections 2.1, 6.2.2.1 and 6.2.2.2 of RFC 3986 read them. */
module EscapeTheory {
  newtype byte = x: int | 0 <= x < 256

  type Bytes = seq<byte>

  const PERCENT: byte := 37

  predicate Digit(b: byte) { 48 <= b <= 57 }
  predicate Upper(b: byte) { 65 <= b <= 90 }
  predicate Lower(b: byte) { 97 <= b <= 122 }

  predicate IsHexDigit(b: byte)
  {
    Digit(b) || 97 <= b <= 102 || 65 <= b <= 70
  }

  function HexValue(b: byte): (v: int)
    requires IsHexDigit(b)
    ensures 0 <= v < 16
  {
    if Digit(b) then b as int - 48 else if b >= 97 then b as int - 97 + 10 else b as int - 65 + 10
  }

  function EscapedByte(high: byte, low: byte): byte
    requires IsHexDigit(high) && IsHexDigit(low)
  {
    (16 * HexValue(high) + HexValue(low)) as byte
  }

  /** Letters, digits, hyphen, full stop, underscore and tilde: escaped or not, they mean the same. */
  predicate IsUnreservedByte(b: byte)
  {
    Lower(b) || Upper(b) || Digit(b) || b == 45 || b == 46 || b == 95 || b == 126
  }

  function ToUpper(b: byte): byte
  {
    if Lower(b) then b - 32 else b
  }

  /** The path begins with a percent sign and two hex digits. */
  predicate EscapeAt(p: Bytes)
  {
    |p| >= 3 && p[0] == PERCENT && IsHexDigit(p[1]) && IsHexDigit(p[2])
  }

  /** Every percent sign introduces two hex digits. */
  predicate WellFormed(p: Bytes)
  {
    if p == [] then true
    else if p[0] == PERCENT then EscapeAt(p) && WellFormed(p[3..])
    else WellFormed(p[1..])
  }

  /** One spelled-out unit of a path: the byte it stands for, and whether it is escaped. */
  datatype Unit = Unit(value: byte, escaped: bool)

  /** A well-formed path unit by unit; the case of its hex digits is gone. */
  function Units(p: Bytes): seq<Unit>
    requires WellFormed(p)
  {
    if p == [] then []
    else if p[0] == PERCENT then [Unit(EscapedByte(p[1], p[2]), true)] + Units(p[3..])
    else [Unit(p[0], false)] + Units(p[1..])
  }

  /** The bytes a path stands for. */
  function Decoded(p: Bytes): Bytes
    requires WellFormed(p)
  {
    if p == [] then []
    else if p[0] == PERCENT then [EscapedByte(p[1], p[2])] + Decoded(p[3..])
    else [p[0]] + Decoded(p[1..])
  }

  /** The same byte, and the escape makes no difference to what it means. */
  predicate Alike(t: Unit, u: Unit)
  {
    t.value == u.value && (t.escaped == u.escaped || IsUnreservedByte(t.value))
  }

  /** Two paths that differ only by escaping of unreserved bytes and by hex case. */
  ghost predicate Equivalent(p: Bytes, q: Bytes)
    requires WellFormed(p) && WellFormed(q)
  {
    |Units(p)| == |Units(q)| && forall i :: 0 <= i < |Units(p)| ==> Alike(Units(p)[i], Units(q)[i])
  }

  /** No unreserved byte is escaped and every escape is in upper case. */
  predicate Normal(p: Bytes)
  {
    if p == [] then true
    else if p[0] == PERCENT then
      && EscapeAt(p) && !Lower(p[1]) && !Lower(p[2]) && !IsUnreservedByte(EscapedByte(p[1], p[2])) && Normal(p[3..])
    else Normal(p[1..])
  }

  /** What one escape is rewritten to. */
  function Rewritten(high: byte, low: byte): Bytes
    requires IsHexDigit(high) && IsHexDigit(low)
  {
    if IsUnreservedByte(EscapedByte(high, low)) then [EscapedByte(high, low)] else [PERCENT, ToUpper(high), ToUpper(low)]
  }

  /** The rewriting, on any path: escapes are rewritten, everything else is kept. */
  function Canonical(p: Bytes): Bytes
  {
    if p == [] then []
    else if EscapeAt(p) then Rewritten(p[1], p[2]) + Canonical(p[3..])
    else [p[0]] + Canonical(p[1..])
  }

  // ----- Digit by digit

  const UPPER_DIGITS := "0123456789ABCDEF"
  const LOWER_DIGITS := "0123456789abcdef"

  const UPPER_LETTERS := "ABCDEFGHIJKLMNOPQRSTUVWXYZ"
  const LOWER_LETTERS := "abcdefghijklmnopqrstuvwxyz"
  const DECIMAL_DIGITS := "0123456789"
  const MARKS := "-._~"

  function Ascii(c: char): byte
  {
    if c < 128 as char then c as int as byte else 0
  }

  lemma DigitValues(v: int)
    requires 0 <= v < 16
    ensures IsHexDigit(Ascii(UPPER_DIGITS[v])) && HexValue(Ascii(UPPER_DIGITS[v])) == v
    ensures IsHexDigit(Ascii(LOWER_DIGITS[v])) && HexValue(Ascii(LOWER_DIGITS[v])) == v
    ensures ToUpper(Ascii(UPPER_DIGITS[v])) == ToUpper(Ascii(LOWER_DIGITS[v])) == Ascii(UPPER_DIGITS[v])
  {
  }

  /** The hex digits are the two lists of sixteen. */
  lemma DigitsAreListed(b: byte)
    ensures IsHexDigit(b) <==> exists v :: 0 <= v < 16 && (b == Ascii(UPPER_DIGITS[v]) || b == Ascii(LOWER_DIGITS[v]))
  {
    if IsHexDigit(b) {
      var v := HexValue(b);
      DigitValues(v);
      assert b == Ascii(UPPER_DIGITS[v]) || b == Ascii(LOWER_DIGITS[v]);
    }
    if v :| 0 <= v < 16 && (b == Ascii(UPPER_DIGITS[v]) || b == Ascii(LOWER_DIGITS[v])) {
      DigitValues(v);
    }
  }

  ghost predicate Spells(b: byte, high: byte, low: byte)
  {
    && high in {Ascii(UPPER_DIGITS[b / 16]), Ascii(LOWER_DIGITS[b / 16])}
    && low in {Ascii(UPPER_DIGITS[b % 16]), Ascii(LOWER_DIGITS[b % 16])}
  }

  /** The two digits of a byte, high one first, each in either case, stand for it. */
  lemma EscapeStandsForByte(b: byte, high: byte, low: byte)
    requires Spells(b, high, low)
    ensures IsHexDigit(high) && IsHexDigit(low) && EscapedByte(high, low) == b
    ensures ToUpper(high) == Ascii(UPPER_DIGITS[b / 16]) && ToUpper(low) == Ascii(UPPER_DIGITS[b % 16])
  {
    DigitValues((b / 16) as int);
    DigitValues((b % 16) as int);
  }

  ghost predicate Listed(b: byte, list: string)
  {
    exists k :: 0 <= k < |list| && b == Ascii(list[k])
  }

  lemma UpperIsListed(b: byte)
    ensures Upper(b) <==> Listed(b, UPPER_LETTERS)
  {
    if Upper(b) {
      assert b == Ascii(UPPER_LETTERS[b as int - 65]);
    }
  }

  lemma LowerIsListed(b: byte)
    ensures Lower(b) <==> Listed(b, LOWER_LETTERS)
  {
    if Lower(b) {
      assert b == Ascii(LOWER_LETTERS[b as int - 97]);
    }
  }

  lemma DigitIsListed(b: byte)
    ensures Digit(b) <==> Listed(b, DECIMAL_DIGITS)
  {
    if Digit(b) {
      assert b == Ascii(DECIMAL_DIGITS[b as int - 48]);
    }
  }

  /** The unreserved bytes are the letters, digits and marks of section 2.3 of RFC 3986. */
  ghost predicate Unreserved(b: byte)
  {
    Listed(b, UPPER_LETTERS) || Listed(b, LOWER_LETTERS) || Listed(b, DECIMAL_DIGITS) || Listed(b, MARKS)
  }

  lemma UnreservedIsListed(b: byte)
    ensures IsUnreservedByte(b) <==> Unreserved(b)
  {
    hide Listed;
    UpperIsListed(b);
    LowerIsListed(b);
    DigitIsListed(b);
    MarksAreListed(b);
  }

  lemma MarksAreListed(b: byte)
    ensures Listed(b, MARKS) <==> b in {45, 46, 95, 126}
  {
    assert Ascii(MARKS[0]) == 45 && Ascii(MARKS[1]) == 46 && Ascii(MARKS[2]) == 95 && Ascii(MARKS[3]) == 126;
  }

  /** Every byte escaped, with the given digits. */
  function EscapedAll(s: Bytes, high: string, low: string): Bytes
    requires |high| == |low| == 16
  {
    if s == [] then [] else [PERCENT, Ascii(high[s[0] / 16]), Ascii(low[s[0] % 16])] + EscapedAll(s[1..], high, low)
  }

  /** The one spelling of a byte string: unreserved bytes plain, the rest escaped in upper case. */
  ghost function Spelled(s: Bytes): Bytes
  {
    if s == [] then []
    else
      (if Unreserved(s[0]) then [s[0]]
       else [PERCENT, Ascii(UPPER_DIGITS[s[0] / 16]), Ascii(UPPER_DIGITS[s[0] % 16])]) + Spelled(s[1..])
  }

  /** Escaping every byte of a string and decoding gives it back, and rewriting gives its one spelling, whatever the
      case of the digits. */
  lemma {:induction false} EscapedAllDecodes(s: Bytes, high: string, low: string)
    requires high in {UPPER_DIGITS, LOWER_DIGITS} && low in {UPPER_DIGITS, LOWER_DIGITS}
    ensures WellFormed(EscapedAll(s, high, low)) && Decoded(EscapedAll(s, high, low)) == s
    ensures Canonical(EscapedAll(s, high, low)) == Spelled(s)
    decreases |s|
  {
    if s != [] {
      var h, l, rest := Ascii(high[s[0] / 16]), Ascii(low[s[0] % 16]), EscapedAll(s[1..], high, low);
      EscapedAllDecodes(s[1..], high, low);
      EscapeStandsForByte(s[0], h, l);
      UnreservedIsListed(s[0]);
      hide Ascii, Unreserved, HexValue, EscapedByte;
      PrefixUnit([PERCENT, h, l], rest);
      EscapeHead(h, l, rest);
    }
  }

  /** Well-formed, said without recursion: two hex digits follow every percent sign. */
  lemma {:induction false} WellFormedEverywhere(p: Bytes)
    ensures WellFormed(p) <==> forall i :: 0 <= i < |p| && p[i] == PERCENT ==> i + 2 < |p| && IsHexDigit(p[i + 1]) && IsHexDigit(p[i + 2])
    decreases |p|
  {
    if p != [] {
      var n := if p[0] == PERCENT && |p| >= 3 then 3 else 1;
      var rest := p[n..];
      WellFormedEverywhere(rest);
      assert forall i :: 0 <= i < |rest| ==> rest[i] == p[i + n];
      assert forall i :: n <= i < |p| ==> p[i] == rest[i - n];
    }
  }

  lemma UpperKeepsValue(b: byte)
    requires IsHexDigit(b)
    ensures IsHexDigit(ToUpper(b)) && HexValue(ToUpper(b)) == HexValue(b) && !Lower(ToUpper(b))
  {
  }

  /** Upper-case hex digits are determined by their value. */
  lemma UpperHexIsUnique(a: byte, b: byte, c: byte, d: byte)
    requires IsHexDigit(a) && IsHexDigit(b) && IsHexDigit(c) && IsHexDigit(d)
    requires EscapedByte(a, b) == EscapedByte(c, d)
    ensures ToUpper(a) == ToUpper(c) && ToUpper(b) == ToUpper(d)
  {
    assert HexValue(a) == HexValue(c) && HexValue(b) == HexValue(d);
  }

  /** The output is well-formed, in normal form, and stands for the same bytes. */
  lemma {:induction false} CanonicalIsNormal(p: Bytes)
    requires WellFormed(p)
    ensures WellFormed(Canonical(p)) && Normal(Canonical(p))
    ensures Decoded(Canonical(p)) == Decoded(p)
    decreases |p|
  {
    if p != [] {
      if p[0] == PERCENT {
        CanonicalIsNormal(p[3..]);
        UpperKeepsValue(p[1]);
        UpperKeepsValue(p[2]);
        PrefixUnit(Rewritten(p[1], p[2]), Canonical(p[3..]));
      } else {
        CanonicalIsNormal(p[1..]);
        PrefixUnit([p[0]], Canonical(p[1..]));
      }
    }
  }

  /** How one spelled-out unit in front of a path is read. */
  lemma PrefixUnit(head: Bytes, rest: Bytes)
    requires |head| == 1 || |head| == 3
    ensures |head| == 1 && head[0] != PERCENT ==>
              (WellFormed(head + rest) <==> WellFormed(rest)) && (Normal(head + rest) <==> Normal(rest))
              && (WellFormed(rest) ==> Decoded(head + rest) == [head[0]] + Decoded(rest) && Units(head + rest) == [Unit(head[0], false)] + Units(rest))
    ensures |head| == 3 && EscapeAt(head) ==>
              && (WellFormed(head + rest) <==> WellFormed(rest))
              && (Normal(head + rest) <==> !Lower(head[1]) && !Lower(head[2]) && !IsUnreservedByte(EscapedByte(head[1], head[2])) && Normal(rest))
              && (WellFormed(rest) ==> Decoded(head + rest) == [EscapedByte(head[1], head[2])] + Decoded(rest))
              && (WellFormed(rest) ==> Units(head + rest) == [Unit(EscapedByte(head[1], head[2]), true)] + Units(rest))
  {
    assert (head + rest)[|head|..] == rest;
  }

  /** A path already in normal form is left as it is. */
  lemma {:induction false} NormalIsFixed(p: Bytes)
    requires Normal(p)
    ensures Canonical(p) == p
    decreases |p|
  {
    if p != [] {
      if p[0] == PERCENT {
        NormalIsFixed(p[3..]);
        assert p == [p[0], p[1], p[2]] + p[3..];
        assert ToUpper(p[1]) == p[1] && ToUpper(p[2]) == p[2];
      } else {
        NormalIsFixed(p[1..]);
        assert p == [p[0]] + p[1..];
      }
    }
  }

  lemma CanonicalIsFixed(p: Bytes)
    requires WellFormed(p)
    ensures Canonical(Canonical(p)) == Canonical(p)
  {
    CanonicalIsNormal(p);
    NormalIsFixed(Canonical(p));
  }

  /** The unit a normal form spells. */
  function NormalUnit(t: Unit): Unit
  {
    if IsUnreservedByte(t.value) then Unit(t.value, false) else t
  }

  function NormalUnits(units: seq<Unit>): seq<Unit>
  {
    seq(|units|, i requires 0 <= i < |units| => NormalUnit(units[i]))
  }

  lemma NormalUnitsCons(t: Unit, rest: seq<Unit>)
    ensures NormalUnits([t] + rest) == [NormalUnit(t)] + NormalUnits(rest)
  {
  }

  lemma {:induction false} CanonicalUnits(p: Bytes)
    requires WellFormed(p)
    ensures WellFormed(Canonical(p)) && Units(Canonical(p)) == NormalUnits(Units(p))
    decreases |p|
  {
    if p != [] {
      if p[0] == PERCENT {
        CanonicalUnits(p[3..]);
        UpperKeepsValue(p[1]);
        UpperKeepsValue(p[2]);
        PrefixUnit(Rewritten(p[1], p[2]), Canonical(p[3..]));
        NormalUnitsCons(Unit(EscapedByte(p[1], p[2]), true), Units(p[3..]));
      } else {
        CanonicalUnits(p[1..]);
        PrefixUnit([p[0]], Canonical(p[1..]));
        NormalUnitsCons(Unit(p[0], false), Units(p[1..]));
      }
    }
  }

  /** A normal form is determined by its units. */
  lemma {:induction false} NormalFormIsUnique(p: Bytes, q: Bytes)
    requires Normal(p) && Normal(q) && WellFormed(p) && WellFormed(q) && Units(p) == Units(q)
    ensures p == q
    decreases |p|
  {
    if p != [] && q != [] {
      assert Units(p)[0] == Units(q)[0];
      if p[0] == PERCENT {
        assert Units(p)[1..] == Units(p[3..]) && Units(q)[1..] == Units(q[3..]);
        NormalFormIsUnique(p[3..], q[3..]);
        UpperHexIsUnique(p[1], p[2], q[1], q[2]);
        assert ToUpper(p[1]) == p[1] && ToUpper(q[1]) == q[1] && ToUpper(p[2]) == p[2] && ToUpper(q[2]) == q[2];
        assert p == [p[0], p[1], p[2]] + p[3..] && q == [q[0], q[1], q[2]] + q[3..];
      } else {
        assert Units(p)[1..] == Units(p[1..]) && Units(q)[1..] == Units(q[1..]);
        NormalFormIsUnique(p[1..], q[1..]);
        assert p == [p[0]] + p[1..] && q == [q[0]] + q[1..];
      }
    }
  }

  /** Two well-formed paths get one spelling exactly when they differ only by escaping of unreserved bytes and hex case. */
  lemma SameSpellingIffEquivalent(p: Bytes, q: Bytes)
    requires WellFormed(p) && WellFormed(q)
    ensures Canonical(p) == Canonical(q) <==> Equivalent(p, q)
  {
    CanonicalUnits(p);
    CanonicalUnits(q);
    CanonicalIsNormal(p);
    CanonicalIsNormal(q);
    var up, uq := Units(p), Units(q);
    if Canonical(p) == Canonical(q) {
      forall i | 0 <= i < |up| ensures Alike(up[i], uq[i]) {
        assert NormalUnits(up)[i] == NormalUnits(uq)[i];
      }
    }
    if Equivalent(p, q) {
      assert NormalUnits(up) == NormalUnits(uq);
      NormalFormIsUnique(Canonical(p), Canonical(q));
    }
  }

  // ----- On any path at all

  /** How many bytes the unit at the head of a path takes. */
  function UnitLength(p: Bytes): (n: nat)
    requires p != []
    ensures 0 < n <= |p|
  {
    if EscapeAt(p) then 3 else 1
  }

  /** What that unit is rewritten to. */
  function Spelling(p: Bytes): Bytes
    requires p != []
  {
    if EscapeAt(p) then Rewritten(p[1], p[2]) else [p[0]]
  }

  /** The unit at the head of the path is rewritten to one hex digit. */
  predicate SpellsDigit(p: Bytes)
  {
    p != [] && |Spelling(p)| == 1 && IsHexDigit(Spelling(p)[0])
  }

  /** A percent sign that starts no escape, with two units behind it that are rewritten to the digits of an escape
      that would itself be rewritten. */
  predicate LateEscape(p: Bytes)
  {
    && p != [] && p[0] == PERCENT && !EscapeAt(p) && SpellsDigit(p[1..])
    && var rest := p[1..][UnitLength(p[1..])..];
       SpellsDigit(rest) && Rewritten(Spelling(p[1..])[0], Spelling(rest)[0]) != [PERCENT, Spelling(p[1..])[0], Spelling(rest)[0]]
  }

  predicate NoLateEscape(p: Bytes)
    decreases |p|
  {
    p != [] ==> !LateEscape(p) && NoLateEscape(p[UnitLength(p)..])
  }

  lemma CanonicalUnfolds(p: Bytes)
    requires p != []
    ensures Canonical(p) == Spelling(p) + Canonical(p[UnitLength(p)..])
  {
  }

  /** A rewritten path starts with a hex digit exactly when its first unit is rewritten to one. */
  lemma FirstDigit(p: Bytes)
    ensures Canonical(p) != [] && IsHexDigit(Canonical(p)[0]) <==> SpellsDigit(p)
    ensures SpellsDigit(p) ==> Canonical(p) == [Spelling(p)[0]] + Canonical(p[UnitLength(p)..])
  {
    if p != [] {
      CanonicalUnfolds(p);
    }
  }

  lemma PlainHead(b: byte, c: Bytes)
    requires b != PERCENT || !EscapeAt([b] + c)
    ensures Canonical([b] + c) == [b] + Canonical(c)
  {
    assert ([b] + c)[1..] == c;
  }

  lemma EscapeHead(high: byte, low: byte, c: Bytes)
    requires IsHexDigit(high) && IsHexDigit(low)
    ensures Canonical([PERCENT, high, low] + c) == Rewritten(high, low) + Canonical(c)
  {
    assert ([PERCENT, high, low] + c)[3..] == c;
  }

  /** A stray percent sign in front of an already rewritten rest. */
  lemma StrayHead(rest: Bytes)
    ensures var c := Canonical(rest);
            var late := SpellsDigit(rest) && SpellsDigit(rest[UnitLength(rest)..])
                        && Rewritten(Spelling(rest)[0], Spelling(rest[UnitLength(rest)..])[0])
                           != [PERCENT, Spelling(rest)[0], Spelling(rest[UnitLength(rest)..])[0]];
            Canonical([PERCENT] + c) == [PERCENT] + c <==> !late && Canonical(c) == c
  {
    var c := Canonical(rest);
    FirstDigit(rest);
    if SpellsDigit(rest) {
      FirstDigit(rest[UnitLength(rest)..]);
    }
    if |c| >= 2 && IsHexDigit(c[0]) && IsHexDigit(c[1]) {
      var x, y, tail := c[0], c[1], c[2..];
      assert c == [x] + ([y] + tail) && [PERCENT] + c == [PERCENT, x, y] + tail;
      EscapeHead(x, y, tail);
      PlainHead(x, [y] + tail);
      PlainHead(y, tail);
      SameTail(x, y, tail);
    } else {
      PlainHead(PERCENT, c);
    }
  }

  lemma SameTail(x: byte, y: byte, tail: Bytes)
    requires IsHexDigit(x) && IsHexDigit(y)
    ensures Rewritten(x, y) + Canonical(tail) == [PERCENT, x, y] + tail <==>
            Rewritten(x, y) == [PERCENT, x, y] && Canonical(tail) == tail
    ensures [x] + ([y] + Canonical(tail)) == [x] + ([y] + tail) <==> Canonical(tail) == tail
  {
    var a, b := Rewritten(x, y) + Canonical(tail), [PERCENT, x, y] + tail;
    if a == b {
      PercentIsReserved();
      assert a[0] == b[0] && a[0] == Rewritten(x, y)[0];
      assert a[1] == b[1] && a[2] == b[2] && a[3..] == b[3..] && b[3..] == tail && a[3..] == Canonical(tail);
    }
    var d, e := [x] + ([y] + Canonical(tail)), [x] + ([y] + tail);
    assert d[2..] == Canonical(tail) && e[2..] == tail;
  }

  lemma PercentIsReserved()
    ensures !IsUnreservedByte(PERCENT)
  {
  }

  /** Rewriting any path again changes nothing exactly when no stray percent sign ends up in front of two digits that
      make it a new escape to rewrite. */
  lemma {:induction false} FixedIffNoLateEscape(p: Bytes)
    ensures Canonical(Canonical(p)) == Canonical(p) <==> NoLateEscape(p)
    decreases |p|
  {
    if p != [] {
      var rest := p[UnitLength(p)..];
      FixedIffNoLateEscape(rest);
      CanonicalUnfolds(p);
      var s, c := Spelling(p), Canonical(rest);
      if !EscapeAt(p) && p[0] == PERCENT {
        StrayHead(rest);
      } else if |s| == 1 {
        PercentIsReserved();
        PlainHead(s[0], c);
        assert ([s[0]] + Canonical(c))[1..] == Canonical(c) && ([s[0]] + c)[1..] == c;
      } else {
        UpperKeepsValue(p[1]);
        UpperKeepsValue(p[2]);
        EscapeHead(s[1], s[2], c);
        assert (s + Canonical(c))[3..] == Canonical(c) && (s + c)[3..] == c;
      }
    }
  }

  /** A well-formed path has no stray percent sign. */
  lemma {:induction false} WellFormedHasNoLateEscape(p: Bytes)
    requires WellFormed(p)
    ensures NoLateEscape(p)
    decreases |p|
  {
    if p != [] {
      WellFormedHasNoLateEscape(p[UnitLength(p)..]);
    }
  }

  lemma {:induction false} NothingToRewrite(p: Bytes)
    requires PERCENT !in p
    ensures Canonical(p) == p
    decreases |p|
  {
    if p != [] {
      NothingToRewrite(p[1..]);
      assert p == [p[0]] + p[1..];
    }
  }
}

/** The byte loops of model/origin.go and model/external_reference.go. */
module Escapes {
  import opened EscapeTheory

  /** Decodes one percent-escape pair. */
  method Unhex(high: byte, low: byte) returns (decoded: byte, ok: bool)
    ensures ok == (IsHexDigit(high) && IsHexDigit(low))
    ensures ok ==> decoded == EscapedByte(high, low)
    ensures forall b :: Spells(b, high, low) ==> ok && decoded == b
  {
    forall b | Spells(b, high, low) ensures IsHexDigit(high) && IsHexDigit(low) && EscapedByte(high, low) == b {
      EscapeStandsForByte(b, high, low);
    }
    hide Spells;
    var value := 0;
    var digits := [high, low];
    for i := 0 to 2
      invariant (i >= 1 ==> IsHexDigit(high)) && (i >= 2 ==> IsHexDigit(low))
      invariant i == 0 ==> value == 0
      invariant i == 1 ==> value == HexValue(high)
      invariant i == 2 ==> value == 16 * HexValue(high) + HexValue(low)
    {
      var digit := digits[i] as int;
      value := 16 * value;
      if 48 <= digit <= 57 {
        value := value + (digit - 48);
      } else if 97 <= digit <= 102 {
        value := value + (digit - 97) + 10;
      } else if 65 <= digit <= 70 {
        value := value + (digit - 65) + 10;
      } else {
        return 0, false;
      }
    }
    return value as byte, true;
  }

  /** Rewrites a path to its one spelling. */
  method CanonicalEscapes(path: Bytes) returns (out: Bytes)
    ensures out == Canonical(path)
  {
    if PERCENT !in path {
      NothingToRewrite(path);
      return path;
    }
    out := [];
    var i := 0;
    hide *;
    assert path[0..] == path && [] + Canonical(path) == Canonical(path);
    while i < |path|
      invariant i <= |path| && out + Canonical(path[i..]) == Canonical(path)
    {
      CanonicalFrom(path, i);
      var piece: Bytes, next := [path[i]], i + 1;
      if path[i] == PERCENT && i + 2 < |path| {
        var decoded, ok := Unhex(path[i + 1], path[i + 2]);
        if ok {
          RewrittenIs(path[i + 1], path[i + 2]);
          piece := if IsUnreservedByte(decoded) then [decoded] else [PERCENT, ToUpper(path[i + 1]), ToUpper(path[i + 2])];
          next := i + 3;
        }
      }
      Carry(out, piece, Canonical(path[next..]), Canonical(path));
      out := out + piece;
      i := next;
    }
    CanonicalEnd();
    assert path[i..] == [];
  }

  lemma Carry(out: Bytes, piece: Bytes, rest: Bytes, all: Bytes)
    requires out + (piece + rest) == all
    ensures (out + piece) + rest == all
  {
  }

  lemma RewrittenIs(high: byte, low: byte)
    requires IsHexDigit(high) && IsHexDigit(low)
    ensures Rewritten(high, low) == if IsUnreservedByte(EscapedByte(high, low)) then [EscapedByte(high, low)]
                                    else [PERCENT, ToUpper(high), ToUpper(low)]
  {
  }

  lemma CanonicalEnd()
    ensures Canonical([]) == []
  {
  }

  /** What the rest of a path is rewritten to, one unit unfolded. */
  lemma CanonicalFrom(path: Bytes, i: nat)
    requires i < |path|
    ensures path[i] == PERCENT && i + 2 < |path| && IsHexDigit(path[i + 1]) && IsHexDigit(path[i + 2]) ==>
              Canonical(path[i..]) == Rewritten(path[i + 1], path[i + 2]) + Canonical(path[i + 3..])
    ensures !(path[i] == PERCENT && i + 2 < |path| && IsHexDigit(path[i + 1]) && IsHexDigit(path[i + 2])) ==>
              Canonical(path[i..]) == [path[i]] + Canonical(path[i + 1..])
  {
    var rest := path[i..];
    assert rest[1..] == path[i + 1..];
    if i + 2 < |path| {
      assert rest[3..] == path[i + 3..];
    }
  }

  method HasValidPercentEscapes(value: Bytes) returns (valid: bool)
    ensures valid == WellFormed(value)
  {
    var i := 0;
    while i < |value|
      invariant i <= |value| && WellFormed(value) == WellFormed(value[i..])
    {
      ghost var rest := value[i..];
      if value[i] != PERCENT {
        assert rest[1..] == value[i + 1..];
        i := i + 1;
      } else {
        if i + 2 >= |value| || !IsHexDigit(value[i + 1]) || !IsHexDigit(value[i + 2]) {
          return false;
        }
        assert rest[3..] == value[i + 3..];
        i := i + 3;
      }
    }
    return true;
  }
}
