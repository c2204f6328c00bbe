/** The character reader of the compiler: newline conversion and pushback through the one integer field
    delayedChar. */
module CharReader {
  import opened Ints

  const LF := 10
  const CR := 13

  /** No delayed character (Int32.MinValue). */
  const NONE := -0x8000_0000

  /** The characters that the field stands for: a non-negative value is one character; any other value d but NONE
      stands for a newline and the character -(d + 1). */
  predicate Encodes(delayed: int, queue: seq<int>) {
    queue == if delayed >= 0 then [delayed] else if delayed > NONE then [LF, -(delayed + 1)] else []
  }

  // ----- The stream -----

  /** What a sequence of raw characters delivers: CR LF and CR become LF. A CR at the very end also delivers a
      second newline and a NUL, since the end-of-file mark -1 is stored as if it were a delayed character. */
  function Delivered(raw: seq<int>): seq<int> {
    if raw == [] then []
    else if raw[0] != CR then [raw[0]] + Delivered(raw[1..])
    else if |raw| == 1 then [LF, LF, 0]
    else if raw[1] == LF then [LF] + Delivered(raw[2..])
    else [LF] + Delivered(raw[1..])
  }

  /** The next character, and what is left; the end of the file after a CR leaves a newline and a NUL. */
  function First(raw: seq<int>): int
    requires raw != []
  {
    if raw[0] == CR then LF else raw[0]
  }

  function Rest(raw: seq<int>): seq<int>
    requires raw != []
  {
    if raw == [CR] then [LF, 0] else if raw[0] == CR && raw[1] == LF then raw[2..] else raw[1..]
  }

  lemma DeliveredNext(raw: seq<int>)
    requires raw != []
    ensures Delivered(raw) == [First(raw)] + Delivered(Rest(raw))
  {
    if raw == [CR] {
      assert Delivered([LF, 0]) == [LF] + Delivered([0]) && Delivered([0]) == [0] + Delivered([]);
    }
  }

  /** The conversion that the reader is for. */
  function Converted(raw: seq<int>): seq<int> {
    if raw == [] then []
    else if raw[0] != CR then [raw[0]] + Converted(raw[1..])
    else if |raw| > 1 && raw[1] == LF then [LF] + Converted(raw[2..])
    else [LF] + Converted(raw[1..])
  }

  function Spurious(raw: seq<int>): seq<int> {
    if raw != [] && raw[|raw| - 1] == CR then [LF, 0] else []
  }

  /** Exactly the inputs that end in a CR deliver more than the converted text. */
  lemma {:induction false} DeliveredIsConverted(raw: seq<int>)
    ensures Delivered(raw) == Converted(raw) + Spurious(raw)
    decreases |raw|
  {
    if raw != [] {
      if raw[0] == CR && |raw| > 1 && raw[1] == LF {
        DeliveredIsConverted(raw[2..]);
      } else if raw[0] != CR || |raw| > 1 {
        DeliveredIsConverted(raw[1..]);
      } else {
        assert Converted(raw) == [LF] + Converted(raw[1..]) == [LF];
      }
    }
  }

  lemma {:induction false} NoCarriageReturn(raw: seq<int>)
    ensures CR !in Converted(raw) && CR !in Delivered(raw)
    decreases |raw|
  {
    if raw != [] {
      NoCarriageReturn(raw[1..]);
      if |raw| > 1 {
        NoCarriageReturn(raw[2..]);
      }
    }
  }

  // ----- The reader -----

  class Reader {
    var delayedChar: int
    var currentInput: seq<char16>

    /** ProcessInput: a new file starts with a newline and a NUL. */
    constructor (input: seq<char16>)
      ensures delayedChar == -1 && currentInput == input && Valid()
      ensures Raw() == [LF, 0] + input
    {
      delayedChar := -1;
      currentInput := input;
    }

    ghost predicate Valid()
      reads this
    {
      delayedChar == NONE || -0x1_0000 <= delayedChar < 0x1_0000
    }

    /** The delayed characters. */
    ghost function Queue(): (q: seq<int>)
      requires Valid()
      reads this
      ensures Encodes(delayedChar, q)
    {
      if delayedChar >= 0 then [delayedChar] else if delayedChar > NONE then [LF, -(delayedChar + 1)] else []
    }

    /** All characters that are still to come, before conversion. */
    ghost function Raw(): seq<int>
      requires Valid()
      reads this
    {
      Queue() + currentInput
    }

    method Read() returns (c: int)
      modifies this`currentInput
      ensures if old(currentInput) == [] then c == -1 && currentInput == []
              else c == old(currentInput)[0] && currentInput == old(currentInput)[1..]
    {
      if currentInput == [] {
        return -1;
      }
      c := currentInput[0];
      currentInput := currentInput[1..];
    }

    /** NextChar delivers the stream. */
    method NextChar() returns (c: int)
      requires Valid()
      modifies this
      ensures Valid()
      ensures old(Raw()) == [] ==> c == -1 && Raw() == []
      ensures old(Raw()) != [] ==> c == First(old(Raw())) && Raw() == Rest(old(Raw()))
      ensures old(Raw()) != [] ==> Delivered(old(Raw())) == [c] + Delivered(Raw())
      ensures if old(Raw()) == [CR] then |Queue()| == 2 else |Queue()| == 0 || (|Queue()| == 1 && c == LF)
    {
      ghost var raw := Raw();
      if raw != [] {
        DeliveredNext(raw);
      }
      c := delayedChar;
      if c >= 0 {
        delayedChar := NONE;
      } else if c > NONE {
        delayedChar := -(c + 1);
        c := LF;
      } else {
        c := Read();
      }
      if c == CR {
        if delayedChar >= 0 {
          c := delayedChar;
          delayedChar := NONE;
        } else {
          c := Read();
        }
        if c != LF {
          delayedChar := c;
          c := LF;
        }
      }
    }

    /** Unread puts one character in front of the stream, or two if the later one is a newline. */
    method Unread(c: int) returns (ok: bool)
      requires Valid() && c < 0x1_0000
      modifies this`delayedChar
      ensures Valid()
      ensures ok <==> c < 0 || |old(Queue())| == 0 || (|old(Queue())| == 1 && c == LF)
      ensures ok && c >= 0 ==> Raw() == [c] + old(Raw())
      ensures !ok || c < 0 ==> delayedChar == old(delayedChar)
    {
      if c < 0 {
        return true;
      }
      if delayedChar < 0 {
        if delayedChar != NONE {
          return false;
        }
        delayedChar := c;
      } else if c != LF {
        return false;
      } else {
        delayedChar := -(delayedChar + 1);
      }
      ok := true;
    }

    /** The lookahead of the tokenizer: read a character, and un-read it. This restores the stream, except after
        a CR at the end of the last file, where it throws. */
    method Peek() returns (c: int, ok: bool)
      requires Valid()
      modifies this
      ensures Valid() && c == if old(Raw()) == [] then -1 else First(old(Raw()))
      ensures ok <==> old(Raw()) != [CR]
      ensures ok ==> Delivered(Raw()) == Delivered(old(Raw()))
    {
      ghost var raw := Raw();
      c := NextChar();
      ok := Unread(c);
      if raw != [] && ok {
        assert Raw()[1..] == Rest(raw);
      }
    }
  }

  /** Text was read, c is the last result of NextChar and raw is still to come. */
  ghost predicate Progress(all: seq<int>, text: seq<int>, c: int, raw: seq<int>) {
    && CharsOnly(raw) && (c < 0 ==> raw == [])
    && all == text + (if c < 0 then [] else [c]) + Delivered(raw)
  }

  lemma ReadOne(all: seq<int>, text: seq<int>, raw: seq<int>)
    requires CharsOnly(raw) && all == text + Delivered(raw)
    ensures if raw == [] then Progress(all, text, -1, [])
            else Progress(all, text, First(raw), Rest(raw)) && |Delivered(Rest(raw))| < |Delivered(raw)|
  {
    if raw != [] {
      DeliveredNext(raw);
      hide Delivered;
      assert all == text + ([First(raw)] + Delivered(Rest(raw)));
    }
  }

  lemma StartProgress(input: seq<char16>)
    ensures CharsOnly([LF, 0] + input)
    ensures Delivered([LF, 0] + input) == [] + Delivered([LF, 0] + input)
  {
  }

  /** Everything that a file delivers, read character by character: a newline and a NUL, the converted text,
      and for a file that ends in CR a spurious newline and NUL. */
  method ReadAll(input: seq<char16>) returns (text: seq<int>)
    ensures text == [LF, 0] + Converted(input) + Spurious(input)
  {
    hide Converted, Spurious, Delivered, First, Rest, CharsOnly, Progress;
    var reader := new Reader(input);
    ghost var all := Delivered([LF, 0] + input);
    StartProgress(input);
    text := [];
    ReadOne(all, text, reader.Raw());
    var c := reader.NextChar();
    while c >= 0
      invariant reader.Valid()
      invariant Progress(all, text, c, reader.Raw())
      decreases |Delivered(reader.Raw())|, c
    {
      ProgressMade(all, text, c, reader.Raw());
      text := text + [c];
      ReadOne(all, text, reader.Raw());
      c := reader.NextChar();
    }
    StartDelivers(input);
    ProgressDone(all, text, c, reader.Raw());
  }

  lemma ProgressMade(all: seq<int>, text: seq<int>, c: int, raw: seq<int>)
    requires Progress(all, text, c, raw) && c >= 0
    ensures CharsOnly(raw) && all == (text + [c]) + Delivered(raw)
  {
  }

  lemma ProgressDone(all: seq<int>, text: seq<int>, c: int, raw: seq<int>)
    requires Progress(all, text, c, raw) && c < 0
    ensures text == all
  {
  }

  predicate CharsOnly(raw: seq<int>) {
    forall i :: 0 <= i < |raw| ==> raw[i] >= 0
  }

  lemma StartDelivers(input: seq<int>)
    ensures Delivered([LF, 0] + input) == [LF, 0] + Converted(input) + Spurious(input)
  {
    hide Delivered, Converted, Spurious;
    DeliveredNext([LF, 0] + input);
    assert Rest([LF, 0] + input) == [0] + input;
    DeliveredNext([0] + input);
    assert Rest([0] + input) == input;
    DeliveredIsConverted(input);
    assert Delivered([LF, 0] + input) == [LF] + ([0] + Delivered(input));
  }
}
