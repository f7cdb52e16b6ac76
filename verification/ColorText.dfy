/** The width of a text on the screen: colour codes, from ESC to the letter m, take no room. */
module ColorText {
  import opened Options

  const NUL: char := 0 as char
  const ESC: char := 27 as char

  /** What follows the first m; None if there is none. */
  function AfterCode(s: string): (r: Option<string>)
    ensures r.Some? ==> |r.value| < |s|
  {
    if s == [] then None else if s[0] == 'm' then Some(s[1..]) else AfterCode(s[1..])
  }

  /** strlenIgnoreColors, up to the first NUL outside a colour code; None where a code is not closed
      and the original reads on behind the text. */
  function Width(s: string): Option<nat>
    decreases |s|
  {
    if s == [] || s[0] == NUL then Some(0)
    else if s[0] == ESC then
      var rest := AfterCode(s);
      if rest.None? then None else Width(rest.value)
    else
      Plus(Some(1), Width(s[1..]))
  }

  function Plus(a: Option<nat>, b: Option<nat>): Option<nat> {
    if a.Some? && b.Some? then Some(a.value + b.value) else None
  }

  /** Without NUL outside the colour codes, and with every code closed. */
  predicate Closed(s: string)
    decreases |s|
  {
    s != [] ==>
      && s[0] != NUL
      && if s[0] == ESC then AfterCode(s).Some? && Closed(AfterCode(s).value) else Closed(s[1..])
  }

  lemma {:induction false} CodeStays(s: string, t: string)
    requires AfterCode(s).Some?
    ensures AfterCode(s + t) == Some(AfterCode(s).value + t)
  {
    assert (s + t)[1..] == s[1..] + t;
    if s[0] != 'm' {
      CodeStays(s[1..], t);
    }
  }

  /** Widths of closed texts add up. */
  lemma {:induction false} WidthsAdd(s: string, t: string)
    requires Closed(s)
    ensures Width(s + t) == Plus(Width(s), Width(t))
    ensures Closed(t) ==> Closed(s + t)
    decreases |s|
  {
    if s == [] {
      assert s + t == t;
    } else if s[0] == ESC {
      CodeStays(s, t);
      WidthsAdd(AfterCode(s).value, t);
    } else {
      assert (s + t)[1..] == s[1..] + t;
      WidthsAdd(s[1..], t);
    }
  }

  lemma {:induction false} CodeOpen(s: string)
    requires AfterCode(s).None?
    ensures AfterCode(s + "m") == Some([])
  {
    if s == [] {
      assert s + "m" == "m";
    } else {
      assert (s + "m")[1..] == s[1..] + "m";
      CodeOpen(s[1..]);
    }
  }

  /** A text that is not closed spoils the sum for some text put behind it. */
  lemma {:induction false} OpenSpoils(s: string) returns (t: string)
    requires !Closed(s)
    ensures Width(s + t) != Plus(Width(s), Width(t))
    decreases |s|
  {
    if s[0] == NUL {
      t := "x";
      assert Width(t) == Some(1) by { assert t[1..] == []; }
    } else if s[0] == ESC {
      if AfterCode(s).None? {
        t := "m";
        CodeOpen(s);
      } else {
        t := OpenSpoils(AfterCode(s).value);
        CodeStays(s, t);
      }
    } else {
      t := OpenSpoils(s[1..]);
      assert (s + t)[1..] == s[1..] + t;
    }
  }

  /** Widths add up for every text put behind exactly when the first text is closed. */
  lemma WidthsAddIffClosed(s: string)
    ensures (forall t :: Width(s + t) == Plus(Width(s), Width(t))) <==> Closed(s)
  {
    if Closed(s) {
      forall t ensures Width(s + t) == Plus(Width(s), Width(t)) { WidthsAdd(s, t); }
    } else {
      var t := OpenSpoils(s);
    }
  }

  lemma {:induction false} CodeEnds(code: string, t: string)
    requires 'm' !in code
    ensures AfterCode(code + "m" + t) == Some(t) && AfterCode(code) == None
  {
    if code == "" {
      assert code + "m" + t == "m" + t && ("m" + t)[1..] == t;
    } else {
      assert code[0] in code;
      assert (code + "m" + t)[1..] == code[1..] + "m" + t;
      CodeEnds(code[1..], t);
    }
  }

  /** Plain characters count one each, a colour code counts nothing and is open without its m, and
      nothing behind a NUL counts. */
  lemma {:induction false} WidthMeans(plain: string, code: string, t: string)
    requires (forall i :: 0 <= i < |plain| ==> plain[i] as int != 0 && plain[i] as int != 27) && 'm' !in code
    ensures Closed(plain) && Width(plain) == Some(|plain|) && Width(plain + [0 as char] + t) == Some(|plain|)
    ensures Width([27 as char] + code + "m" + t) == Width(t) && Closed([27 as char] + code + "m")
    ensures Width([27 as char] + code) == None && !Closed([27 as char] + code)
  {
    var open := [27 as char] + code;
    assert 'm' !in open;
    CodeEnds(open, t);
    CodeEnds(open, "");
    assert open + "m" + "" == open + "m";
    if plain == "" {
      assert plain + [0 as char] + t == [0 as char] + t;
    } else {
      assert (plain + [0 as char] + t)[1..] == plain[1..] + [0 as char] + t;
      WidthMeans(plain[1..], code, t);
    }
  }

  method StrlenIgnoreColors(text: string) returns (count: nat)
    requires Width(text).Some?
    ensures Width(text) == Some(count)
  {
    count := 0;
    var s := text;
    while s != [] && s[0] != NUL
      invariant Width(text) == Plus(Some(count), Width(s))
      decreases |s|
    {
      if s[0] == ESC {
        ghost var from := s;
        assert AfterCode(s).Some?;
        while s[0] != 'm'
          invariant s != [] && AfterCode(s) == AfterCode(from) && AfterCode(s).Some? && |s| <= |from|
          decreases |s|
        {
          s := s[1..];
        }
        s := s[1..];
      } else {
        s, count := s[1..], count + 1;
      }
    }
  }

  lemma OneLetter(c: char)
    requires c != NUL && c != ESC
    ensures Closed([c]) && Width([c]) == Some(1)
  {
    assert [c][1..] == [];
  }

  function Repeat(str: string, times: int): string {
    if times <= 0 then [] else str + Repeat(str, times - 1)
  }

  lemma {:induction false} RepeatWidth(str: string, times: int)
    requires Closed(str) && Width(str).Some?
    ensures Closed(Repeat(str, times))
    ensures Width(Repeat(str, times)) == Some(if times <= 0 then 0 else times * Width(str).value)
  {
    if times > 0 {
      RepeatWidth(str, times - 1);
      WidthsAdd(str, Repeat(str, times - 1));
    }
  }

  lemma {:induction false} RepeatLast(str: string, times: nat)
    ensures Repeat(str, times) + str == Repeat(str, times + 1)
  {
    if times == 0 {
      assert [] + str == str + [];
    } else {
      RepeatLast(str, times - 1);
      assert str + Repeat(str, times - 1) + str == str + (Repeat(str, times - 1) + str);
    }
  }

  method RepeatText(str: string, numberOfTimes: int) returns (buffer: string)
    ensures buffer == Repeat(str, numberOfTimes)
  {
    buffer := [];
    var left, done := numberOfTimes, 0;
    while left > 0
      invariant done >= 0 && buffer == Repeat(str, done) && (left > 0 ==> done + left == numberOfTimes)
      invariant left <= 0 ==> done == if numberOfTimes > 0 then numberOfTimes else 0
    {
      RepeatLast(str, done);
      buffer, left, done := buffer + str, left - 1, done + 1;
    }
  }
}
