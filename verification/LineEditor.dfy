/** The line cleaning at the head of Descriptor::processInput: erase keys and unprintable bytes
    are taken out of the command in place. */
module LineEditor {

  import opened Bytes

  const BACKSPACE: Byte := 8
  const DEL: Byte := 127

  predicate Erases(c: Byte) {
    c == BACKSPACE || c == DEL
  }

  /** isascii and isprint. */
  predicate Prints(c: Byte) {
    32 <= c < 127
  }

  /** The line after one more key. */
  function Press(line: seq<Byte>, c: Byte): seq<Byte> {
    if Erases(c) then (if line == [] then [] else line[..|line| - 1])
    else if Prints(c) then line + [c]
    else line
  }

  function PressAll(line: seq<Byte>, keys: seq<Byte>): seq<Byte>
    decreases |keys|
  {
    if keys == [] then line else PressAll(Press(line, keys[0]), keys[1..])
  }

  /** The loop, with the position the source keeps: it steps back over what it erased. */
  method CleanLine(input: seq<Byte>) returns (command: seq<Byte>)
    ensures command == PressAll([], input)
  {
    hide PressAll;
    command := input;
    var pos: int := 0;
    assert input[0..] == input;
    while pos < |command|
      invariant 0 <= pos <= |command|
      invariant PressAll(command[..pos], command[pos..]) == PressAll([], input)
      decreases |command| - pos
    {
      PressNext(command, pos);
      var ch := command[pos];
      if ch == BACKSPACE || ch == DEL {
        if pos == 0 {
          command := command[1..];
          pos := pos - 1;
        } else {
          Erased(command, pos - 1, pos + 1);
          command := command[..pos - 1] + command[pos + 1..];
          pos := pos - 2;
        }
      } else if !Prints(ch) {
        Erased(command, pos, pos + 1);
        command := command[..pos] + command[pos + 1..];
        pos := pos - 1;
      }
      pos := pos + 1;
    }
    assert command[..pos] == command;
    PressNone(command, command[pos..]);
  }

  lemma Erased(line: seq<Byte>, from: nat, to: nat)
    requires from <= to <= |line|
    ensures (line[..from] + line[to..])[..from] == line[..from]
    ensures (line[..from] + line[to..])[from..] == line[to..]
  {
  }

  lemma PressNext(line: seq<Byte>, pos: nat)
    requires pos < |line|
    ensures PressAll(line[..pos], line[pos..]) == PressAll(Press(line[..pos], line[pos]), line[pos + 1..])
    ensures Erases(line[pos]) && pos > 0 ==> Press(line[..pos], line[pos]) == line[..pos - 1]
    ensures Prints(line[pos]) && !Erases(line[pos]) ==> Press(line[..pos], line[pos]) == line[..pos + 1]
  {
    assert line[pos..][1..] == line[pos + 1..];
  }

  lemma PressNone(line: seq<Byte>, keys: seq<Byte>)
    requires keys == []
    ensures PressAll(line, keys) == line
  {
  }

  /** The same line read from its end: each erase key cancels the nearest printing key before it
      that is not cancelled already. */
  function KeepFromEnd(keys: seq<Byte>, cancel: nat): seq<Byte> {
    if keys == [] then [] else
      var n, c := |keys| - 1, keys[|keys| - 1];
      if Erases(c) then KeepFromEnd(keys[..n], cancel + 1)
      else if !Prints(c) then KeepFromEnd(keys[..n], cancel)
      else if cancel > 0 then KeepFromEnd(keys[..n], cancel - 1)
      else KeepFromEnd(keys[..n], 0) + [c]
  }

  function DropLast(line: seq<Byte>, n: nat): seq<Byte> {
    if n >= |line| then [] else line[..|line| - n]
  }

  lemma {:induction false} PressLast(line: seq<Byte>, keys: seq<Byte>)
    requires keys != []
    ensures PressAll(line, keys) == Press(PressAll(line, keys[..|keys| - 1]), keys[|keys| - 1])
    decreases |keys|
  {
    if |keys| == 1 {
      assert keys[1..] == [] && keys[..0] == [];
    } else {
      PressLast(Press(line, keys[0]), keys[1..]);
      assert keys[1..][..|keys| - 2] == keys[..|keys| - 1][1..];
    }
  }

  /** One more key: backspace (8) and delete (127) take the last byte off, the bytes 32 to 126 are
      put behind it, and any other byte is passed over. */
  lemma KeyMeans(keys: seq<Byte>, c: Byte)
    ensures PressAll([], []) == []
    ensures var before, after := PressAll([], keys), PressAll([], keys + [c]);
            && (c == 8 || c == 127 ==> after == if before == [] then [] else before[..|before| - 1])
            && (32 <= c <= 126 ==> after == before + [c])
            && (c < 8 || 8 < c < 32 || 127 < c ==> after == before)
  {
    PressLast([], keys + [c]);
    assert (keys + [c])[..|keys|] == keys;
  }

  lemma {:induction false} EndIsStack(keys: seq<Byte>, cancel: nat)
    ensures KeepFromEnd(keys, cancel) == DropLast(PressAll([], keys), cancel)
    decreases |keys|
  {
    if keys != [] {
      var n, c := |keys| - 1, keys[|keys| - 1];
      var line := PressAll([], keys[..n]);
      PressLast([], keys);
      if Erases(c) {
        EndIsStack(keys[..n], cancel + 1);
      } else if !Prints(c) {
        EndIsStack(keys[..n], cancel);
      } else if cancel > 0 {
        EndIsStack(keys[..n], cancel - 1);
        assert DropLast(line + [c], cancel) == DropLast(line, cancel - 1);
      } else {
        EndIsStack(keys[..n], 0);
      }
    }
  }

  /** What remains of a line is what the scan from its end keeps. */
  lemma CleanedLineFromEnd(keys: seq<Byte>)
    ensures PressAll([], keys) == KeepFromEnd(keys, 0)
  {
    EndIsStack(keys, 0);
  }

  ghost predicate AllPrint(line: seq<Byte>) {
    forall i :: 0 <= i < |line| ==> Prints(line[i])
  }

  lemma {:induction false} PressKeepsPrinting(line: seq<Byte>, keys: seq<Byte>)
    requires AllPrint(line)
    ensures AllPrint(PressAll(line, keys))
    ensures AllPrint(keys) ==> PressAll(line, keys) == line + keys
    decreases |keys|
  {
    if keys != [] {
      PressKeepsPrinting(Press(line, keys[0]), keys[1..]);
      assert keys == [keys[0]] + keys[1..];
    }
  }

  /** The cleaned line is all printable, and a line is left as it is exactly when it was so. */
  lemma CleanIffUnchanged(keys: seq<Byte>)
    ensures AllPrint(PressAll([], keys))
    ensures PressAll([], keys) == keys <==> AllPrint(keys)
  {
    PressKeepsPrinting([], keys);
    assert [] + keys == keys;
  }

  lemma CleaningTwice(keys: seq<Byte>)
    ensures PressAll([], PressAll([], keys)) == PressAll([], keys)
  {
    CleanIffUnchanged(keys);
    CleanIffUnchanged(PressAll([], keys));
  }
}
