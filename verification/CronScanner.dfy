/** Reading a crontab character by character (get_char, get_number, the blank-skipping macros of
    cron.h): the current character is held outside the file, none meaning end of file. */
module CronScanner {
  import opened Options
  import opened CronText

  lemma {:induction false} WordAtLeast(w: string, tail: string)
    requires forall i :: 0 <= i < |w| ==> IsAlnum(w[i])
    ensures WordLength(w + tail) >= |w|
  {
    hide IsAlnum;
    if w != "" {
      assert (w + tail)[0] == w[0] && (w + tail)[1..] == w[1..] + tail;
      WordAtLeast(w[1..], tail);
    }
  }

  lemma OneMore(w: string, c: char)
    ensures AllDigits(w + [c]) == (AllDigits(w) && IsDigit(c))
  {
    hide IsDigit;
    var u := w + [c];
    assert u[|w|] == c && forall i :: 0 <= i < |w| ==> u[i] == w[i];
  }

  class Scanner {
    const text: string
    var next: nat

    constructor (text: string)
      ensures Valid() && this.text == text && next == 0
    {
      this.text := text;
      next := 0;
    }

    ghost predicate Valid()
      reads this
    {
      next <= |text|
    }

    // What is still to be read when ch is the current character.
    ghost function Rest(ch: Option<char>): string
      reads this
      requires Valid()
    {
      if ch.None? then "" else [ch.value] + text[next..]
    }

    // get_char
    method GetChar() returns (ch: Option<char>)
      requires Valid()
      modifies this
      ensures Valid() && Rest(ch) == old(text[next..])
    {
      if next == |text| {
        ch := None;
      } else {
        ch := Some(text[next]);
        next := next + 1;
      }
    }

    method SkipNonblank(start: Option<char>) returns (ch: Option<char>)
      requires Valid()
      modifies this
      ensures Valid() && Rest(ch) == SkipNonblanks(old(Rest(start)))
    {
      ch := start;
      while ch.Some? && !IsBlank(ch.value) && ch.value != '\n'
        invariant Valid() && SkipNonblanks(Rest(ch)) == SkipNonblanks(old(Rest(start)))
        decreases |Rest(ch)|
      {
        ch := GetChar();
      }
    }

    method SkipBlank(start: Option<char>) returns (ch: Option<char>)
      requires Valid()
      modifies this
      ensures Valid() && Rest(ch) == SkipBlanks(old(Rest(start)))
    {
      ch := start;
      while ch.Some? && IsBlank(ch.value)
        invariant Valid() && SkipBlanks(Rest(ch)) == SkipBlanks(old(Rest(start)))
        decreases |Rest(ch)|
      {
        ch := GetChar();
      }
    }

    // The first loop of get_number: letters and digits into a buffer of MAX_TEMPSTR characters.
    method Collect(start: Option<char>) returns (temp: string, allDigits: bool, full: bool, ch: Option<char>)
      requires Valid()
      modifies this
      ensures Valid() && full == (WordLength(old(Rest(start))) >= MAX_TEMPSTR)
      ensures !full ==> var s, n := old(Rest(start)), |temp|;
                        n == WordLength(s) && temp == s[..n] && Rest(ch) == s[n..] && allDigits == AllDigits(temp)
    {
      hide IsAlnum, IsDigit, WordLength;
      ghost var s := Rest(start);
      temp, allDigits, full, ch := "", true, false, start;
      while ch.Some? && IsAlnum(ch.value)
        invariant Valid() && s == temp + Rest(ch) && |temp| < MAX_TEMPSTR
        invariant forall i :: 0 <= i < |temp| ==> IsAlnum(temp[i])
        invariant allDigits == AllDigits(temp)
        decreases |Rest(ch)|
      {
        ghost var rest := Rest(ch)[1..];
        ghost var before := temp;
        temp := temp + [ch.value];
        assert s == temp + rest;
        if |temp| >= MAX_TEMPSTR {
          WordAtLeast(temp, rest);
          full := true;
          return;
        }
        OneMore(before, ch.value);
        allDigits := allDigits && IsDigit(ch.value);
        ch := GetChar();
        assert Rest(ch) == rest;
      }
      WordAtLeast(temp, Rest(ch));
      ghost var n := WordLength(s);
      assert ch.Some? ==> s[|temp|] == ch.value;
      assert n == |temp|;
    }

    // get_number
    method GetNumber(kind: Kind, start: Option<char>) returns (num: nat, ch: Option<char>)
      requires Valid()
      modifies this
      ensures Valid()
      ensures match ReadNumber(kind, old(Rest(start)))
              case Eof => ch.None?
              case Read(v, rest) => num == v && ch.Some? && Rest(ch) == rest
    {
      hide WordLength, Decimal, Atoi;
      num := 0;
      var temp, allDigits, full, c := Collect(start);
      if full { return 0, None; }
      assert c.None? <==> |Rest(c)| == 0;
      for i := 0 to |kind.names|
        invariant NameIndex(kind.names, temp, 0) == NameIndex(kind.names, temp, i)
      {
        if SameName(kind.names[i], temp) {
          return i + kind.low, c;
        }
      }
      if allDigits {
        return Atoi(temp), c;
      }
      return 0, None;
    }
  }
}
