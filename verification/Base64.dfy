/** The base64 encoder of the dynamic DNS client and the decoder of the web server, which sit in
    different programs: what one writes the other reads. Masks and shifts by constants are
    written as division and remainder; an or of disjoint bits is a sum. */
module Base64 {
  import opened Bytes

  type Digit = d: int | 0 <= d < 64

  // b64_decode_table on 7-bit characters, -1 outside the alphabet.
  function Value(c: char): (d: int)
    ensures -1 <= d < 64
  {
    if 'A' <= c <= 'Z' then c as int - 'A' as int
    else if 'a' <= c <= 'z' then c as int - 'a' as int + 26
    else if '0' <= c <= '9' then c as int - '0' as int + 52
    else if c == '+' then 62
    else if c == '/' then 63
    else -1
  }

  // table64, run by run: A-Z, a-z, 0-9, +, /
  function Letter(d: Digit): char {
    if d < 26 then 'A' + d as char
    else if d < 52 then 'a' + (d - 26) as char
    else if d < 62 then '0' + (d - 52) as char
    else if d == 62 then '+' else '/'
  }

  // The table of one program is the inverse of the table of the other.
  lemma TablesAgree(d: Digit)
    ensures Value(Letter(d)) == d
  {
  }

  // The alphabet of table 1 of RFC 4648, in three parts.
  const UPPER := "ABCDEFGHIJKLMNOPQRSTUVWXYZ"
  const LOWER := "abcdefghijklmnopqrstuvwxyz"
  const OTHERS := "0123456789+/"

  lemma LettersAre(d: Digit)
    ensures |UPPER| == 26 && |LOWER| == 26 && |OTHERS| == 12
    ensures Letter(d) == (UPPER + LOWER + OTHERS)[d]
  {
    hide UPPER, LOWER, OTHERS;
    if d < 26 { UpperAt(d); } else if d < 52 { LowerAt(d - 26); } else { OtherAt(d - 52); }
    Sizes();
  }

  lemma Sizes()
    ensures |UPPER| == 26 && |LOWER| == 26 && |OTHERS| == 12
  {
  }

  lemma UpperAt(i: nat)
    requires i < 26
    ensures |UPPER| == 26 && UPPER[i] == 'A' + i as char
  {
  }

  lemma LowerAt(i: nat)
    requires i < 26
    ensures |LOWER| == 26 && LOWER[i] == 'a' + i as char
  {
  }

  lemma OtherAt(i: nat)
    requires i < 12
    ensures |OTHERS| == 12 && OTHERS[i] == if i < 10 then '0' + i as char else if i == 10 then '+' else '/'
  {
  }

  // ---- what the programs compute

  // Three bytes as four digits, missing bytes as zero.
  function Group(a: Byte, b: Byte, c: Byte): (g: seq<Digit>)
    ensures |g| == 4
  {
    [a / 4, a % 4 * 16 + b / 16, b % 16 * 4 + c / 64, c % 64]
  }

  // The four digits are the 24 bits of the three bytes, six at a time, the first ones first.
  lemma GroupIs(a: Byte, b: Byte, c: Byte)
    ensures var g := Group(a, b, c);
            (a as int) * 65536 + (b as int) * 256 + c as int == (((g[0] as int) * 64 + g[1] as int) * 64 + g[2] as int) * 64 + g[3] as int
  {
  }

  function Letters(ds: seq<Digit>): (s: string)
    ensures |s| == |ds| && forall i :: 0 <= i < |s| ==> s[i] == Letter(ds[i])
  {
    seq(|ds|, i requires 0 <= i < |ds| => Letter(ds[i]))
  }

  // The encoding of section 4 of RFC 4648.
  function Encoded(s: seq<Byte>): string {
    if |s| == 0 then ""
    else if |s| == 1 then Letters(Group(s[0], 0, 0)[..2]) + "=="
    else if |s| == 2 then Letters(Group(s[0], s[1], 0)[..3]) + "="
    else Letters(Group(s[0], s[1], s[2])) + Encoded(s[3..])
  }

  // The digits of a text; everything else is skipped.
  function Digits(str: string): seq<Digit> {
    if str == "" then []
    else if Value(str[0]) == -1 then Digits(str[1..])
    else [Value(str[0])] + Digits(str[1..])
  }

  function First(d: Digit, e: Digit): Byte { d * 4 + e / 16 }
  function Second(e: Digit, f: Digit): Byte { e % 16 * 16 + f / 4 }
  function Third(f: Digit, g: Digit): Byte { f % 4 * 64 + g }

  // Four digits as three bytes; of an incomplete group, the bytes that are complete.
  function Decoded(ds: seq<Digit>): seq<Byte> {
    if |ds| <= 1 then []
    else if |ds| == 2 then [First(ds[0], ds[1])]
    else if |ds| == 3 then [First(ds[0], ds[1]), Second(ds[1], ds[2])]
    else [First(ds[0], ds[1]), Second(ds[1], ds[2]), Third(ds[2], ds[3])] + Decoded(ds[4..])
  }

  // ---- there and back

  lemma GroupBack(a: Byte, b: Byte, c: Byte)
    ensures var g := Group(a, b, c); First(g[0], g[1]) == a && Second(g[1], g[2]) == b && Third(g[2], g[3]) == c
  {
  }

  lemma {:induction false} DigitsConcat(s: string, t: string)
    ensures Digits(s + t) == Digits(s) + Digits(t)
  {
    if s == "" {
      assert s + t == t;
    } else {
      assert (s + t)[1..] == s[1..] + t;
      DigitsConcat(s[1..], t);
    }
  }

  lemma {:induction false} LettersBack(ds: seq<Digit>)
    ensures Digits(Letters(ds)) == ds
  {
    hide Letter, Value;
    if ds != [] {
      var s := Letters(ds);
      assert s[1..] == Letters(ds[1..]);
      TablesAgree(ds[0]);
      LettersBack(ds[1..]);
    }
  }

  lemma Padding()
    ensures Digits("=") == [] && Digits("==") == []
  {
    assert "=="[1..] == "=" && "="[1..] == "";
  }

  lemma {:induction false} DecodedConcat(g: seq<Digit>, rest: seq<Digit>)
    requires |g| == 4
    ensures Decoded(g + rest) == [First(g[0], g[1]), Second(g[1], g[2]), Third(g[2], g[3])] + Decoded(rest)
  {
    assert (g + rest)[4..] == rest;
  }

  // Decoding what was encoded gives it back.
  lemma {:induction false} RoundTrip(s: seq<Byte>)
    ensures Decoded(Digits(Encoded(s))) == s
  {
    hide First, Second, Third, Letter, Value, Digits, Letters;
    Padding();
    if |s| == 0 {
      NoDigits();
    } else if |s| <= 2 {
      var b := if |s| == 2 then s[1] else 0;
      var g := Group(s[0], b, 0);
      GroupBack(s[0], b, 0);
      LettersBack(g[..|s| + 1]);
      DigitsConcat(Letters(g[..|s| + 1]), if |s| == 1 then "==" else "=");
    } else {
      var g := Group(s[0], s[1], s[2]);
      GroupBack(s[0], s[1], s[2]);
      LettersBack(g);
      DigitsConcat(Letters(g), Encoded(s[3..]));
      DecodedConcat(g, Digits(Encoded(s[3..])));
      RoundTrip(s[3..]);
    }
  }

  lemma NoDigits()
    ensures Digits("") == []
  {
  }

  function Alphabetic(str: string): string {
    if str == "" then "" else (if Value(str[0]) == -1 then "" else [str[0]]) + Alphabetic(str[1..])
  }

  // Characters outside the alphabet make no difference.
  lemma {:induction false} OnlyAlphabet(str: string)
    ensures Digits(Alphabetic(str)) == Digits(str)
  {
    hide Value;
    if str != "" {
      var rest := Alphabetic(str[1..]);
      assert ([str[0]] + rest)[1..] == rest && "" + rest == rest;
      OnlyAlphabet(str[1..]);
    }
  }

  // ---- the encoder

  // The sprintf of one group.
  function Printed(obuf: seq<Digit>, inputparts: nat): string
    requires |obuf| == 4
  {
    if inputparts == 1 then [Letter(obuf[0]), Letter(obuf[1]), '=', '=']
    else if inputparts == 2 then [Letter(obuf[0]), Letter(obuf[1]), Letter(obuf[2]), '=']
    else [Letter(obuf[0]), Letter(obuf[1]), Letter(obuf[2]), Letter(obuf[3])]
  }

  lemma PrintedWhole(g: seq<Digit>)
    requires |g| == 4
    ensures Printed(g, 3) == Letters(g)
  {
    hide Letter;
  }

  lemma PrintedPart(g: seq<Digit>)
    requires |g| == 4
    ensures Printed(g, 1) == Letters(g[..2]) + "==" && Printed(g, 2) == Letters(g[..3]) + "="
  {
    hide Letter;
  }

  lemma LastGroup(s: seq<Byte>)
    requires 1 <= |s| <= 2
    ensures Encoded(s) == Printed(Group(s[0], if |s| == 2 then s[1] else 0, 0), |s|)
  {
    hide Printed, Letters, Group;
    PrintedPart(Group(s[0], if |s| == 2 then s[1] else 0, 0));
  }

  lemma EncodedGroup(s: seq<Byte>, n: nat)
    requires |s| > 0 && n == if |s| < 3 then |s| else 3
    ensures var b: Byte, c: Byte := if n > 1 then s[1] else 0, if n > 2 then s[2] else 0;
            Encoded(s) == Printed(Group(s[0], b, c), n) + Encoded(s[n..])
  {
    hide Encoded, Printed, Letters, Group;
    if |s| < 3 {
      LastGroup(s);
      EncodedEnd();
      assert s[n..] == [] && Encoded(s) + "" == Encoded(s);
    } else {
      PrintedWhole(Group(s[0], s[1], s[2]));
      FirstGroup(s);
    }
  }

  lemma FirstGroup(s: seq<Byte>)
    requires |s| >= 3
    ensures Encoded(s) == Letters(Group(s[0], s[1], s[2])) + Encoded(s[3..])
  {
    hide Letters, Group;
  }

  // base64Encode on a string without NUL, which would end it.
  method Encode(intext: seq<Byte>) returns (output: string)
    requires 0 !in intext
    ensures output == Encoded(intext)
  {
    hide Encoded, Printed, Group;
    output := "";
    var at := 0;
    assert intext[0..] == intext;
    while at < |intext|
      invariant at <= |intext| && output + Encoded(intext[at..]) == Encoded(intext)
    {
      var inputparts, a: Byte, b: Byte, c: Byte := 1, intext[at], 0, 0;
      if at + 1 < |intext| {
        inputparts, b := 2, intext[at + 1];
        if at + 2 < |intext| { inputparts, c := 3, intext[at + 2]; }
      }
      EncodedGroup(intext[at..], inputparts);
      assert intext[at..][inputparts..] == intext[at + inputparts..];
      output := output + Printed(Group(a, b, c), inputparts);
      at := at + inputparts;
    }
    EncodedEnd();
    assert intext[at..] == [] && output + "" == output;
  }

  lemma EncodedEnd()
    ensures Encoded([]) == ""
  {
  }

  // ---- the decoder

  // What is decoded when `phase` digits of a group have been taken, the last being prev.
  function Resume(phase: nat, prev: Digit, ds: seq<Digit>): seq<Byte>
    requires phase < 4
    decreases |ds|
  {
    if ds == [] then []
    else (if phase == 0 then [] else if phase == 1 then [First(prev, ds[0])]
          else if phase == 2 then [Second(prev, ds[0])] else [Third(prev, ds[0])])
         + Resume((phase + 1) % 4, ds[0], ds[1..])
  }

  lemma {:induction false} ResumeIsDecoded(prev: Digit, ds: seq<Digit>)
    ensures Resume(0, prev, ds) == Decoded(ds)
    decreases |ds|
  {
    hide First, Second, Third;
    if |ds| >= 1 {
      var r1 := Resume(1, ds[0], ds[1..]);
      assert Resume(0, prev, ds) == r1;
      if |ds| >= 2 {
        assert r1 == [First(ds[0], ds[1])] + Resume(2, ds[1], ds[2..]);
        if |ds| >= 3 {
          assert Resume(2, ds[1], ds[2..]) == [Second(ds[1], ds[2])] + Resume(3, ds[2], ds[3..]);
          if |ds| >= 4 {
            assert Resume(3, ds[2], ds[3..]) == [Third(ds[2], ds[3])] + Resume(0, ds[3], ds[4..]);
            ResumeIsDecoded(ds[3], ds[4..]);
          }
        }
      }
    }
  }

  function Min(a: int, b: int): int { if a < b then a else b }

  // Of the bytes made, those for which there is room are at the front; the rest is as it was.
  ghost predicate Wrote(now: seq<Byte>, was: seq<Byte>, made: seq<Byte>, room: nat, n: nat) {
    |now| == |was| && room <= |was| && n == Min(room, |made|) && now == made[..n] + was[n..]
  }

  lemma WroteMore(now: seq<Byte>, was: seq<Byte>, made: seq<Byte>, room: nat, n: nat, c: Byte)
    requires Wrote(now, was, made, room, n)
    ensures if n < room then Wrote(now[n := c], was, made + [c], room, n + 1) else Wrote(now, was, made + [c], room, n)
  {
    var more := made + [c];
    if n < room {
      assert n == |made| && made[..n] == made && more[..n + 1] == more;
      assert now[n := c] == more + was[n + 1..];
    } else {
      assert more[..n] == made[..n];
    }
  }

  // The digits left after one character.
  lemma NextDigit(str: string, cp: nat)
    requires cp < |str|
    ensures var d, rest := Value(str[cp]), Digits(str[cp + 1..]);
            Digits(str[cp..]) == if d == -1 then rest else [d] + rest
  {
    hide Value;
    assert str[cp..][1..] == str[cp + 1..];
  }

  lemma ResumeNext(phase: nat, prev: Digit, d: Digit, rest: seq<Digit>)
    requires phase < 4
    ensures Resume(phase, prev, [d] + rest)
         == (if phase == 0 then [] else [Output(phase, prev, d)]) + Resume((phase + 1) % 4, d, rest)
  {
    hide First, Second, Third;
    assert ([d] + rest)[1..] == rest;
  }

  // The byte completed by digit d in phase 1, 2 or 3.
  function Output(phase: nat, prev: Digit, d: Digit): Byte {
    if phase == 1 then First(prev, d) else if phase == 2 then Second(prev, d) else Third(prev, d)
  }

  // A C string of seven-bit characters: the table is indexed with a signed char.
  predicate SevenBit(str: string) { forall i :: 0 <= i < |str| ==> 0 < str[i] as int < 128 }

  lemma LettersSevenBit(ds: seq<Digit>)
    ensures SevenBit(Letters(ds))
  {
  }

  lemma {:induction false} EncodedSevenBit(s: seq<Byte>)
    ensures SevenBit(Encoded(s))
  {
    hide Letter, Group, Letters;
    if |s| == 1 {
      LettersSevenBit(Group(s[0], 0, 0)[..2]);
    } else if |s| == 2 {
      LettersSevenBit(Group(s[0], s[1], 0)[..3]);
    } else if |s| >= 3 {
      LettersSevenBit(Group(s[0], s[1], s[2]));
      EncodedSevenBit(s[3..]);
    }
  }

  // b64_decode: as many bytes as fit, and nothing else is written.
  method Decode(str: string, space: array<Byte>, size: int) returns (n: nat)
    requires SevenBit(str) && size <= space.Length
    modifies space
    ensures Wrote(space[..], old(space[..]), Decoded(Digits(str)), if size < 0 then 0 else size, n)
  {
    hide Value, Output, Resume, Digits, Decoded, Wrote;
    ghost var out, room, was := Decoded(Digits(str)), if size < 0 then 0 else size, space[..];
    n := 0;
    var phase: nat, prev: Digit, cp: nat := 0, 0, 0;
    ghost var made: seq<Byte> := [];
    ResumeIsDecoded(0, Digits(str));
    assert str[0..] == str;
    Unwritten(was, room);
    while cp < |str|
      invariant cp <= |str| && phase < 4
      invariant made + Resume(phase, prev, Digits(str[cp..])) == out
      invariant Wrote(space[..], was, made, room, n)
    {
      var d := Value(str[cp]);
      NextDigit(str, cp);
      if d != -1 {
        ResumeNext(phase, prev, d, Digits(str[cp + 1..]));
        if phase > 0 {
          var c := Output(phase, prev, d);
          WroteMore(space[..], was, made, room, n, c);
          if n < size {
            space[n] := c;
            n := n + 1;
          }
          made := made + [c];
        }
        phase := (phase + 1) % 4;
        prev := d;
      }
      cp := cp + 1;
    }
    assert made == out by { AtEnd(phase, prev); assert str[cp..] == ""; }
  }

  lemma Unwritten(was: seq<Byte>, room: nat)
    requires room <= |was|
    ensures Wrote(was, was, [], room, 0)
  {
  }

  lemma AtEnd(phase: nat, prev: Digit)
    requires phase < 4
    ensures Resume(phase, prev, Digits("")) == []
  {
  }

  // One program writes, the other reads: the first bytes, as many as there is room for.
  method Exchange(s: seq<Byte>, space: array<Byte>, size: nat) returns (n: nat)
    requires 0 !in s && size <= space.Length
    modifies space
    ensures n == Min(size, |s|) && space[..n] == s[..n]
  {
    hide Encoded, Decoded, Digits;
    var text := Encode(s);
    RoundTrip(s);
    EncodedSevenBit(s);
    n := Decode(text, space, size);
  }
}
