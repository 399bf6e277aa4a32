/**
 The RESP2 request parser and the serializers that answer it: arrays of bulk strings, as clients send
 them, and inline commands. TCP may cut the stream anywhere; a parse asks for more bytes, yields a
 command, or rejects.
 */
module Resp {
  import opened Collections
  import opened Bytes

  const CR: Byte := 13
  const LF: Byte := 10
  const STAR: Byte := 42
  const DOLLAR: Byte := 36
  const MINUS: Byte := 45
  const SPACE: Byte := 32
  const ZERO: Byte := 48
  const CRLF: Data := [13, 10]
  const MAX_ELEMENTS := 1024
  const MAX_BULK := 64 * 1024 * 1024

  type Command = seq<Data>

  // ---- Lines and numbers ----

  /** The first CRLF at or after `pos`. */
  function FindCrlf(s: Data, pos: nat): (r: Option<nat>)
    ensures r.Some? ==> pos <= r.value && r.value + 2 <= |s|
    decreases |s| - pos
  {
    if pos + 2 > |s| then None
    else if s[pos] == CR && s[pos + 1] == LF then Some(pos)
    else FindCrlf(s, pos + 1)
  }

  predicate IsDigit(b: Byte) {
    ZERO <= b <= 57
  }

  predicate AllDigits(d: Data) {
    forall i | 0 <= i < |d| :: IsDigit(d[i])
  }

  function DecValue(d: Data): int {
    if d == [] then 0 else 10 * DecValue(d[..|d| - 1]) + (d[|d| - 1] - ZERO)
  }

  /** The integer a length line spells: an optional minus sign and at least one digit. */
  function Number(d: Data): Option<int> {
    if d == [] then None
    else if d[0] == MINUS then
      if |d| == 1 || !AllDigits(d[1..]) then None else Some(-DecValue(d[1..]))
    else if !AllDigits(d) then None
    else Some(DecValue(d))
  }

  datatype Line = MoreLine | BadLine | NumberLine(value: int, next: nat)

  /** The number up to the next CRLF. */
  function ReadNumber(s: Data, pos: nat): (r: Line)
    ensures r.NumberLine? ==> pos + 2 <= r.next <= |s|
  {
    match FindCrlf(s, pos)
    case None => MoreLine
    case Some(end) =>
      match Number(s[pos..end])
      case None => BadLine
      case Some(v) => NumberLine(v, end + 2)
  }

  // ---- One command ----

  datatype Item = MoreItem | BadItem | Item(payload: Data, next: nat)
  datatype Bulks = MoreBulks | BadBulks | Parts(parts: Command, next: nat)

  /** The bulk string at `pos`. */
  function ReadBulk(s: Data, pos: nat): (r: Item)
    ensures r.Item? ==> pos < r.next <= |s|
  {
    if pos >= |s| then MoreItem
    else if s[pos] != DOLLAR then BadItem
    else
      match ReadNumber(s, pos + 1)
      case MoreLine => MoreItem
      case BadLine => BadItem
      case NumberLine(len, at) =>
        if len < 0 || len > MAX_BULK then BadItem
        else if |s| < at + len + 2 then MoreItem
        else if s[at + len..at + len + 2] != CRLF then BadItem
        else Item(s[at..at + len], at + len + 2)
  }

  function Before(parts: Command, b: Bulks): Bulks {
    if b.Parts? then Parts(parts + b.parts, b.next) else b
  }

  /** `n` bulk strings from `pos` on. */
  function ReadBulks(s: Data, pos: nat, n: nat): (r: Bulks)
    requires pos <= |s|
    ensures r.Parts? ==> pos <= r.next <= |s|
    decreases n
  {
    if n == 0 then Parts([], pos)
    else
      match ReadBulk(s, pos)
      case MoreItem => MoreBulks
      case BadItem => BadBulks
      case Item(payload, next) => Before([payload], ReadBulks(s, next, n - 1))
  }

  /** Words of a line, split on spaces; `word` is the one begun. */
  function Words(line: Data, word: Data): Command
    decreases |line|
  {
    if line == [] then if word == [] then [] else [word]
    else if line[0] == SPACE then (if word == [] then [] else [word]) + Words(line[1..], [])
    else Words(line[1..], word + [line[0]])
  }

  /** No word of a line is empty or holds a space. */
  lemma {:induction false} WordsClean(line: Data, word: Data)
    requires 32 !in word
    ensures forall w | w in Words(line, word) :: w != [] && 32 !in w
    decreases |line|
  {
    if line != [] {
      if line[0] == SPACE { WordsClean(line[1..], []); } else { WordsClean(line[1..], word + [line[0]]); }
    }
  }

  /** A space ends a word: what follows it is split on its own. */
  lemma {:induction false} WordsAtSpace(a: Data, b: Data, word: Data)
    ensures Words(a + [32] + b, word) == Words(a, word) + Words(b, [])
    decreases |a|
  {
    var l := a + [32] + b;
    if a == [] {
      assert l[1..] == b;
    } else {
      assert l[1..] == a[1..] + [32] + b;
      if a[0] == SPACE {
        WordsAtSpace(a[1..], b, []);
        var first := if word == [] then [] else [word];
        assert first + (Words(a[1..], []) + Words(b, [])) == (first + Words(a[1..], [])) + Words(b, []);
      } else {
        WordsAtSpace(a[1..], b, word + [a[0]]);
      }
    }
  }

  /** A line without spaces is a single word, unless it is empty. */
  lemma {:induction false} WordsOfOne(w: Data, word: Data)
    requires 32 !in w
    ensures Words(w, word) == if word + w == [] then [] else [word + w]
    decreases |w|
  {
    if w == [] {
      assert word + w == word;
    } else {
      WordsOfOne(w[1..], word + [w[0]]);
      assert word + [w[0]] + w[1..] == word + w;
    }
  }

  function Spaced(ws: Command): Data {
    if ws == [] then [] else if |ws| == 1 then ws[0] else ws[0] + [SPACE] + Spaced(ws[1..])
  }

  /** Words joined by single spaces split back to themselves. */
  lemma {:induction false} WordsBack(ws: Command)
    requires forall i | 0 <= i < |ws| :: ws[i] != [] && 32 !in ws[i]
    ensures Words(Spaced(ws), []) == ws
    decreases |ws|
  {
    if ws != [] {
      WordsOfOne(ws[0], []);
      assert [] + ws[0] == ws[0];
      if |ws| > 1 {
        WordsAtSpace(ws[0], Spaced(ws[1..]), []);
        WordsBack(ws[1..]);
        assert [ws[0]] + ws[1..] == ws;
      }
    }
  }

  datatype Parsed = NeedMore | Malformed | Parsed(args: Command, next: nat)

  /** The command at the front of `s`. */
  function ParseOne(s: Data): (r: Parsed)
    ensures r.Parsed? ==> 0 < r.next <= |s|
  {
    if s == [] then NeedMore
    else if s[0] != STAR then
      match FindCrlf(s, 0)
      case None => NeedMore
      case Some(end) => Parsed(Words(s[..end], []), end + 2)
    else
      match ReadNumber(s, 1)
      case MoreLine => NeedMore
      case BadLine => Malformed
      case NumberLine(n, at) =>
        if n < 0 || n > MAX_ELEMENTS then Malformed
        else
          match ReadBulks(s, at, n)
          case MoreBulks => NeedMore
          case BadBulks => Malformed
          case Parts(parts, next) => Parsed(parts, next)
  }

  /** What is found is the first CRLF from the position on, and nothing is found only if there is none. */
  lemma {:induction false} FindCrlfFirst(s: Data, pos: nat)
    ensures var e := if FindCrlf(s, pos).Some? then FindCrlf(s, pos).value else |s|;
            && (FindCrlf(s, pos).Some? ==> pos <= e && e + 2 <= |s| && s[e] == 13 && s[e + 1] == 10)
            && forall i | pos <= i < e && i + 1 < |s| :: !(s[i] == 13 && s[i + 1] == 10)
    decreases |s| - pos
  {
    if pos + 2 <= |s| && !(s[pos] == CR && s[pos + 1] == LF) { FindCrlfFirst(s, pos + 1); }
  }

  lemma {:induction false} FindCrlfAt(s: Data, pos: nat, e: nat)
    requires pos <= e && e + 2 <= |s| && s[e] == 13 && s[e + 1] == 10
    requires forall i | pos <= i < e :: !(s[i] == 13 && s[i + 1] == 10)
    ensures FindCrlf(s, pos) == Some(e)
    decreases e - pos
  {
    if pos < e { FindCrlfAt(s, pos + 1, e); }
  }

  /** A line that starts with anything but a star is a command of its words, if there are any. */
  lemma ParseInline(line: Data, rest: Data)
    requires line == [] || line[0] != 42
    requires forall i | 0 <= i < |line| - 1 :: !(line[i] == 13 && line[i + 1] == 10)
    ensures ParseOne(line + CRLF + rest) == Parsed(Words(line, []), |line| + 2)
  {
    hide Words, FindCrlf, ReadNumber, ReadBulks;
    var s := line + CRLF + rest;
    assert forall i | 0 <= i < |line| :: s[i] == line[i];
    assert s[|line|] == 13 && s[|line| + 1] == 10;
    FindCrlfAt(s, 0, |line|);
    assert s[..|line|] == line;
  }

  /** A blank line and an array of no elements are read and yield no command. */
  lemma NothingAsked(rest: Data)
    ensures ParseOne([13, 10] + rest) == Parsed([], 2) && ParseOne([42, 48, 13, 10] + rest) == Parsed([], 4)
    ensures Drain([13, 10]) == Drained([], [], true) == Drain([42, 48, 13, 10])
  {
    hide ReadNumber, FindCrlf;
    forall x: Data ensures ParseOne([13, 10] + x) == Parsed([], 2) && ParseOne([42, 48, 13, 10] + x) == Parsed([], 4) {
      ParseInline([], x);
      assert [] + CRLF + x == [13, 10] + x;
      ReadNumberBack([42], 0, x);
      assert [42] + Dec(0) + CRLF + x == [42, 48, 13, 10] + x;
    }
    assert [13, 10] + [] == [13, 10] && [42, 48, 13, 10] + [] == [42, 48, 13, 10];
    assert ParseOne([]) == NeedMore;
  }

  /** An inline command of words without spaces or line ends arrives as sent. */
  lemma InlineBack(ws: Command, rest: Data)
    requires forall i | 0 <= i < |ws| :: ws[i] != [] && 32 !in ws[i] && 13 !in ws[i]
    requires ws != [] ==> ws[0][0] != 42
    ensures ParseOne(Spaced(ws) + CRLF + rest) == Parsed(ws, |Spaced(ws)| + 2)
  {
    WordsBack(ws);
    SpacedBytes(ws);
    ParseInline(Spaced(ws), rest);
  }

  lemma {:induction false} SpacedBytes(ws: Command)
    requires forall i | 0 <= i < |ws| :: ws[i] != [] && 13 !in ws[i]
    ensures 13 !in Spaced(ws) && (ws != [] ==> Spaced(ws) != [] && Spaced(ws)[0] == ws[0][0])
  {
    if |ws| > 1 { SpacedBytes(ws[1..]); }
  }

  // ---- Later bytes never change a verdict ----

  lemma {:induction false} FindCrlfStable(s: Data, x: Data, pos: nat)
    requires FindCrlf(s, pos).Some?
    ensures FindCrlf(s + x, pos) == FindCrlf(s, pos)
    decreases |s| - pos
  {
    if !(s[pos] == CR && s[pos + 1] == LF) { FindCrlfStable(s, x, pos + 1); }
  }

  lemma ReadNumberStable(s: Data, x: Data, pos: nat)
    requires !ReadNumber(s, pos).MoreLine?
    ensures ReadNumber(s + x, pos) == ReadNumber(s, pos)
  {
    hide Number, FindCrlf;
    FindCrlfStable(s, x, pos);
    var end := FindCrlf(s, pos).value;
    assert (s + x)[pos..end] == s[pos..end];
  }

  lemma ReadBulkStable(s: Data, x: Data, pos: nat)
    requires !ReadBulk(s, pos).MoreItem?
    ensures ReadBulk(s + x, pos) == ReadBulk(s, pos)
  {
    hide ReadNumber;
    if s[pos] == DOLLAR {
      ReadNumberStable(s, x, pos + 1);
      var line := ReadNumber(s, pos + 1);
      if line.NumberLine? && 0 <= line.value <= MAX_BULK {
        var at, len := line.next, line.value;
        assert (s + x)[at + len..at + len + 2] == s[at + len..at + len + 2];
        assert (s + x)[at..at + len] == s[at..at + len];
      }
    }
  }

  lemma {:induction false} ReadBulksStable(s: Data, x: Data, pos: nat, n: nat)
    requires pos <= |s| && !ReadBulks(s, pos, n).MoreBulks?
    ensures ReadBulks(s + x, pos, n) == ReadBulks(s, pos, n)
    decreases n
  {
    hide ReadBulk;
    if n > 0 {
      ReadBulkStable(s, x, pos);
      var item := ReadBulk(s, pos);
      if item.Item? { ReadBulksStable(s, x, item.next, n - 1); }
    }
  }

  /** A command found or a rejection stands, whatever bytes arrive later. */
  lemma ParseStable(s: Data, x: Data)
    requires !ParseOne(s).NeedMore?
    ensures ParseOne(s + x) == ParseOne(s)
  {
    hide ReadNumber, ReadBulks, FindCrlf, Words;
    if s[0] != STAR {
      FindCrlfStable(s, x, 0);
      var end := FindCrlf(s, 0).value;
      assert (s + x)[..end] == s[..end];
    } else {
      ReadNumberStable(s, x, 1);
      var line := ReadNumber(s, 1);
      if line.NumberLine? && 0 <= line.value <= MAX_ELEMENTS { ReadBulksStable(s, x, line.next, line.value); }
    }
  }

  // ---- A whole buffer, and chunks ----

  /** Commands parsed off the front of a buffer, what is left of it, and whether it was not rejected. */
  datatype Drained = Drained(commands: seq<Command>, rest: Data, ok: bool)

  function Kept(args: Command): seq<Command> {
    if args == [] then [] else [args]
  }

  function Drain(s: Data): Drained
    decreases |s|
  {
    match ParseOne(s)
    case NeedMore => Drained([], s, true)
    case Malformed => Drained([], s, false)
    case Parsed(args, next) =>
      var d := Drain(s[next..]);
      d.(commands := Kept(args) + d.commands)
  }

  /** Draining a longer buffer is draining the first part, and then what it left together with the rest. */
  lemma {:induction false} DrainAppend(s: Data, x: Data)
    ensures Drain(s).ok ==>
              && Drain(s + x).commands == Drain(s).commands + Drain(Drain(s).rest + x).commands
              && Drain(s + x).rest == Drain(Drain(s).rest + x).rest
              && Drain(s + x).ok == Drain(Drain(s).rest + x).ok
    ensures !Drain(s).ok ==> !Drain(s + x).ok && Drain(s + x).commands == Drain(s).commands
    decreases |s|
  {
    hide ParseOne;
    if ParseOne(s).Malformed? {
      ParseStable(s, x);
    } else if ParseOne(s).Parsed? {
      ParseStable(s, x);
      var args, next := ParseOne(s).args, ParseOne(s).next;
      assert (s + x)[next..] == s[next..] + x;
      DrainAppend(s[next..], x);
      var d := Drain(s[next..]);
      if d.ok {
        assert Kept(args) + (d.commands + Drain(d.rest + x).commands)
            == (Kept(args) + d.commands) + Drain(d.rest + x).commands;
      }
    }
  }

  function Joined(chunks: seq<Data>): Data {
    if chunks == [] then [] else chunks[0] + Joined(chunks[1..])
  }

  /** Feeding chunk after chunk, each together with what the last one left, until one is rejected. */
  function FeedChunks(buf: Data, chunks: seq<Data>): Drained
    decreases |chunks|
  {
    if chunks == [] then Drained([], buf, true)
    else
      var d := Drain(buf + chunks[0]);
      if !d.ok then d
      else
        var r := FeedChunks(d.rest, chunks[1..]);
        r.(commands := d.commands + r.commands)
  }

  /** Cutting the stream differently changes nothing: the same commands come out, the same bytes are left, and the same
      streams are rejected. `buf` is a buffer the parser has nothing more to do with. */
  lemma {:induction false} ChunkInvariance(buf: Data, chunks: seq<Data>)
    requires Drain(buf) == Drained([], buf, true)
    ensures var whole, parts := Drain(buf + Joined(chunks)), FeedChunks(buf, chunks);
            && parts.ok == whole.ok && parts.commands == whole.commands
            && (whole.ok ==> parts.rest == whole.rest)
    decreases |chunks|
  {
    hide ParseOne, Drain;
    if chunks == [] {
      assert buf + Joined(chunks) == buf;
    } else {
      var d := Drain(buf + chunks[0]);
      assert buf + Joined(chunks) == (buf + chunks[0]) + Joined(chunks[1..]);
      DrainAppend(buf + chunks[0], Joined(chunks[1..]));
      if d.ok {
        DrainLeavesNothingToDo(buf + chunks[0]);
        ChunkInvariance(d.rest, chunks[1..]);
      }
    }
  }

  lemma {:induction false} DrainLeavesNothingToDo(s: Data)
    requires Drain(s).ok
    ensures Drain(Drain(s).rest) == Drained([], Drain(s).rest, true)
    decreases |s|
  {
    hide ParseOne;
    if ParseOne(s).Parsed? { DrainLeavesNothingToDo(s[ParseOne(s).next..]); }
  }

  // ---- Serializers, and the round trip ----

  /** Decimal digits of a number. */
  function Dec(n: nat): Data {
    if n < 10 then [ZERO + n] else Dec(n / 10) + [ZERO + n % 10]
  }

  lemma {:induction false} DecBack(n: nat)
    ensures Dec(n) != [] && AllDigits(Dec(n)) && DecValue(Dec(n)) == n
  {
    if n >= 10 {
      DecBack(n / 10);
      var d := Dec(n);
      assert d[..|d| - 1] == Dec(n / 10);
    } else {
      assert Dec(n)[..0] == [];
    }
  }

  function Bulk(a: Data): Data {
    [DOLLAR] + Dec(|a|) + CRLF + a + CRLF
  }

  function BulkAll(args: Command): Data {
    if args == [] then [] else Bulk(args[0]) + BulkAll(args[1..])
  }

  function EncodeCommand(args: Command): Data {
    [STAR] + Dec(|args|) + CRLF + BulkAll(args)
  }

  function EncodeCommands(cmds: seq<Command>): Data {
    if cmds == [] then [] else EncodeCommand(cmds[0]) + EncodeCommands(cmds[1..])
  }

  ghost predicate Sendable(args: Command) {
    1 <= |args| <= 1024 && forall i | 0 <= i < |args| :: |args[i]| <= 67108864
  }

  lemma {:induction false} FindCrlfAfterDigits(s: Data, pos: nat, k: nat)
    requires pos + k + 2 <= |s| && AllDigits(s[pos..pos + k]) && s[pos + k..pos + k + 2] == CRLF
    ensures FindCrlf(s, pos) == Some(pos + k)
    decreases k
  {
    if k == 0 {
      assert s[pos] == s[pos..pos + 2][0] && s[pos + 1] == s[pos..pos + 2][1];
    } else {
      assert s[pos] == s[pos..pos + k][0];
      assert s[pos + 1..pos + 1 + (k - 1)] == s[pos..pos + k][1..];
      assert pos + 1 + (k - 1) == pos + k;
      FindCrlfAfterDigits(s, pos + 1, k - 1);
    }
  }

  /** A printed length is read back. */
  lemma ReadNumberBack(pre: Data, n: nat, rest: Data)
    ensures ReadNumber(pre + Dec(n) + CRLF + rest, |pre|) == NumberLine(n, |pre| + |Dec(n)| + 2)
  {
    hide DecValue, Dec, FindCrlf;
    var s := pre + Dec(n) + CRLF + rest;
    DecBack(n);
    assert s[|pre|..|pre| + |Dec(n)|] == Dec(n);
    assert s[|pre| + |Dec(n)|..|pre| + |Dec(n)| + 2] == CRLF;
    FindCrlfAfterDigits(s, |pre|, |Dec(n)|);
    assert Dec(n)[0] != MINUS;
  }

  /** Encoded bulk strings are read back, whatever stands before and after them. */
  lemma {:induction false} ReadBulksBack(pre: Data, args: Command, rest: Data)
    requires forall i | 0 <= i < |args| :: |args[i]| <= MAX_BULK
    ensures ReadBulks(pre + BulkAll(args) + rest, |pre|, |args|) == Parts(args, |pre| + |BulkAll(args)|)
    decreases |args|
  {
    hide ReadBulk, Bulk;
    if args != [] {
      var a := args[0];
      var after := BulkAll(args[1..]) + rest;
      Regroup(pre, Bulk(a), BulkAll(args[1..]), rest);
      ReadBulkBack(pre, a, after);
      ReadBulksBack(pre + Bulk(a), args[1..], rest);
      assert [a] + args[1..] == args;
    }
  }

  lemma Regroup(a: Data, b: Data, c: Data, d: Data)
    ensures a + (b + c) + d == a + b + (c + d) == (a + b) + c + d
    ensures |a + (b + c)| == |a + b| + |c|
  {
  }

  /** One bulk string: its marker, its length, its payload and its end are where the reader looks for them. */
  lemma BulkPrefix(pre: Data, a: Data, rest: Data)
    ensures var s := pre + Bulk(a) + rest;
            var at := |pre| + 1 + |Dec(|a|)| + 2;
            && |s| >= at + |a| + 2 && s[|pre|] == DOLLAR && |pre + Bulk(a)| == at + |a| + 2
            && ReadNumber(s, |pre| + 1) == NumberLine(|a|, at)
            && s[at..at + |a|] == a && s[at + |a|..at + |a| + 2] == CRLF
  {
    hide ReadNumber, Dec;
    var s := pre + Bulk(a) + rest;
    ReadNumberBack(pre + [DOLLAR], |a|, a + CRLF + rest);
    assert s == pre + [DOLLAR] + Dec(|a|) + CRLF + (a + CRLF + rest);
  }

  /** An encoded bulk string is read back. */
  lemma ReadBulkBack(pre: Data, a: Data, rest: Data)
    requires |a| <= MAX_BULK
    ensures ReadBulk(pre + Bulk(a) + rest, |pre|) == Item(a, |pre + Bulk(a)|)
  {
    hide ReadNumber, Dec, Bulk;
    BulkPrefix(pre, a, rest);
  }

  lemma ParseEncoded(args: Command, rest: Data)
    requires Sendable(args)
    ensures ParseOne(EncodeCommand(args) + rest) == Parsed(args, |EncodeCommand(args)|)
  {
    hide ReadNumber, ReadBulks, Dec, BulkAll, FindCrlf, Words;
    var s := EncodeCommand(args) + rest;
    ReadNumberBack([STAR], |args|, BulkAll(args) + rest);
    assert s == [STAR] + Dec(|args|) + CRLF + (BulkAll(args) + rest);
    var pre := [STAR] + Dec(|args|) + CRLF;
    ReadBulksBack(pre, args, rest);
    assert s == pre + BulkAll(args) + rest;
  }

  lemma {:induction false} DrainEncoded(cmds: seq<Command>)
    requires forall i | 0 <= i < |cmds| :: Sendable(cmds[i])
    ensures Drain(EncodeCommands(cmds)) == Drained(cmds, [], true)
    decreases |cmds|
  {
    hide EncodeCommand, ParseOne;
    if cmds == [] {
      NothingToParse();
    } else {
      var rest := EncodeCommands(cmds[1..]);
      ParseEncoded(cmds[0], rest);
      assert (EncodeCommand(cmds[0]) + rest)[|EncodeCommand(cmds[0])|..] == rest;
      DrainEncoded(cmds[1..]);
      assert [cmds[0]] + cmds[1..] == cmds;
    }
  }

  lemma NothingToParse()
    ensures ParseOne([]) == NeedMore && Drain([]) == Drained([], [], true)
  {
  }

  /** A command cut off anywhere is waited for. */
  lemma CutNeedsMore(args: Command, k: nat)
    requires Sendable(args) && k < |EncodeCommand(args)|
    ensures ParseOne(EncodeCommand(args)[..k]) == NeedMore
  {
    hide ParseOne, EncodeCommand;
    var whole, s := EncodeCommand(args), EncodeCommand(args)[..k];
    ParseEncoded(args, []);
    assert whole + [] == whole && s + whole[k..] == whole;
    if !ParseOne(s).NeedMore? { ParseStable(s, whole[k..]); }
  }

  /** More than 1024 bulk strings, or a negative number of them, are refused; so is a bulk string of more than 2^26
      bytes or of a negative length. */
  lemma Refusals(n: nat, pre: Data, rest: Data)
    ensures n > 1024 ==> ParseOne([42] + Dec(n) + [13, 10] + rest) == Malformed
    ensures n > 0 ==> ParseOne([42, 45] + Dec(n) + [13, 10] + rest) == Malformed
    ensures n > 67108864 ==> ReadBulk(pre + [36] + Dec(n) + [13, 10] + rest, |pre|) == BadItem
    ensures n > 0 ==> ReadBulk(pre + [36, 45] + Dec(n) + [13, 10] + rest, |pre|) == BadItem
  {
    hide ReadNumber, Dec, FindCrlf, ReadBulks, Words;
    ReadNumberBack([42], n, rest);
    ReadNegativeBack([42], n, rest);
    assert [42, 45] == [42] + [45];
    ReadNumberBack(pre + [36], n, rest);
    ReadNegativeBack(pre + [36], n, rest);
    assert pre + [36, 45] == pre + [36] + [45];
  }

  lemma ReadNegativeBack(pre: Data, n: nat, rest: Data)
    ensures ReadNumber(pre + [45] + Dec(n) + [13, 10] + rest, |pre|) == NumberLine(-(n as int), |pre| + |Dec(n)| + 3)
  {
    hide DecValue, Dec, FindCrlf;
    var s, d := pre + [45] + Dec(n) + [13, 10] + rest, [45] + Dec(n);
    var e := |pre| + |d|;
    DecBack(n);
    assert s[|pre|..e] == d && d[1..] == Dec(n);
    forall i | |pre| <= i < e ensures s[i] != 13 {
      assert s[i] == d[i - |pre|];
      if i > |pre| { assert s[i] == Dec(n)[i - |pre| - 1]; }
    }
    FindCrlfAt(s, |pre|, e);
  }

  /** `*1 $3 GET` and the lengths 1024 and -1, byte by byte. */
  lemma WireFormat()
    ensures EncodeCommand([[71, 69, 84]]) == [42, 49, 13, 10, 36, 51, 13, 10, 71, 69, 84, 13, 10]
    ensures Dec(1024) == [49, 48, 50, 52] && Number([45, 49]) == Some(-1) && Number([45]) == None == Number([])
  {
    var get: Data, none: Command := [71, 69, 84], [];
    assert Dec(1) == [49] && Dec(3) == [51] && Dec(10) == [49, 48] && Dec(102) == [49, 48, 50];
    assert [get][1..] == none && BulkAll(none) == [];
    assert BulkAll([get]) == [36, 51, 13, 10] + get + [13, 10];
    assert [45, 49][1..] == [49] && [49][..0] == [];
  }

  /** Whatever a client encodes arrives as sent, however the bytes are cut on the way. */
  lemma RoundTrip(cmds: seq<Command>, chunks: seq<Data>)
    requires forall i | 0 <= i < |cmds| :: Sendable(cmds[i])
    requires Joined(chunks) == EncodeCommands(cmds)
    ensures FeedChunks([], chunks) == Drained(cmds, [], true)
  {
    hide Drain, FeedChunks, EncodeCommands;
    NothingToParse();
    ChunkInvariance([], chunks);
    DrainEncoded(cmds);
    assert [] + Joined(chunks) == Joined(chunks);
  }

  // ---- The parser ----

  method FindLineEnd(s: Data, pos: nat) returns (r: Option<nat>)
    ensures r == FindCrlf(s, pos)
  {
    var i := pos;
    while i + 2 <= |s|
      invariant FindCrlf(s, pos) == FindCrlf(s, i)
      decreases |s| - i
    {
      if s[i] == CR && s[i + 1] == LF { return Some(i); }
      i := i + 1;
    }
    r := None;
  }

  /** Checks the digits of a length one by one. */
  method ReadDigits(d: Data) returns (r: Option<int>)
    ensures r == Number(d)
  {
    if d == [] { return None; }
    var start := if d[0] == MINUS then 1 else 0;
    if start == |d| { return None; }
    var body := d[start..];
    assert d[0..] == d;
    var v := 0;
    assert body[..0] == [];
    for i := 0 to |body|
      invariant AllDigits(body[..i]) && v == DecValue(body[..i])
    {
      if !IsDigit(body[i]) { return None; }
      assert body[..i + 1][..i] == body[..i];
      v := 10 * v + (body[i] - ZERO);
    }
    assert body[..|body|] == body;
    r := Some(if d[0] == MINUS then -v else v);
  }

  method ParseNumberLine(s: Data, pos: nat) returns (r: Line)
    ensures r == ReadNumber(s, pos)
  {
    var end := FindLineEnd(s, pos);
    if end.None? { return MoreLine; }
    var v := ReadDigits(s[pos..end.value]);
    r := if v.None? then BadLine else NumberLine(v.value, end.value + 2);
  }

  method SplitWords(line: Data) returns (words: Command)
    ensures words == Words(line, [])
  {
    words := [];
    var word: Data := [];
    assert line[0..] == line;
    for i := 0 to |line|
      invariant Words(line, []) == words + Words(line[i..], word)
    {
      assert line[i..][1..] == line[i + 1..] && line[i..][0] == line[i];
      if line[i] == SPACE {
        if word != [] { words := words + [word]; }
        word := [];
      } else {
        word := word + [line[i]];
      }
    }
    if word != [] { words := words + [word]; }
  }

  method ParseBulk(s: Data, pos: nat) returns (r: Item)
    ensures r == ReadBulk(s, pos)
  {
    hide ReadNumber;
    if pos >= |s| { return MoreItem; }
    if s[pos] != DOLLAR { return BadItem; }
    var line := ParseNumberLine(s, pos + 1);
    if line.MoreLine? { return MoreItem; }
    if line.BadLine? { return BadItem; }
    var len, at := line.value, line.next;
    if len < 0 || len > MAX_BULK { return BadItem; }
    if |s| < at + len + 2 { return MoreItem; }
    if s[at + len..at + len + 2] != CRLF { return BadItem; }
    r := Item(s[at..at + len], at + len + 2);
  }

  method ParseBulks(s: Data, start: nat, n: nat) returns (r: Bulks)
    requires start <= |s|
    ensures r == ReadBulks(s, start, n)
  {
    hide ReadBulk;
    var parts: Command, pos: nat := [], start;
    for i := 0 to n
      invariant pos <= |s| && ReadBulks(s, start, n) == Before(parts, ReadBulks(s, pos, n - i))
    {
      var item := ParseBulk(s, pos);
      if item.MoreItem? { return MoreBulks; }
      if item.BadItem? { return BadBulks; }
      NextBulk(parts, item.payload, ReadBulks(s, item.next, n - i - 1));
      parts, pos := parts + [item.payload], item.next;
    }
    r := Parts(parts, pos);
  }

  lemma NextBulk(parts: Command, a: Data, b: Bulks)
    ensures Before(parts, Before([a], b)) == Before(parts + [a], b)
  {
    if b.Parts? { assert parts + ([a] + b.parts) == (parts + [a]) + b.parts; }
  }

  method ParseCommand(s: Data) returns (r: Parsed)
    ensures r == ParseOne(s)
  {
    hide ReadNumber, ReadBulks, FindCrlf, Words;
    if s == [] { return NeedMore; }
    if s[0] != STAR {
      var end := FindLineEnd(s, 0);
      if end.None? { return NeedMore; }
      var words := SplitWords(s[..end.value]);
      return Parsed(words, end.value + 2);
    }
    var line := ParseNumberLine(s, 1);
    if line.MoreLine? { return NeedMore; }
    if line.BadLine? || line.value < 0 || line.value > MAX_ELEMENTS { return Malformed; }
    var bulks := ParseBulks(s, line.next, line.value);
    match bulks
    case MoreBulks => r := NeedMore;
    case BadBulks => r := Malformed;
    case Parts(parts, next) => r := Parsed(parts, next);
  }

  lemma DrainStep(s: Data, ready: seq<Command>)
    ensures ready + [] == ready
    ensures ParseOne(s).NeedMore? ==> Drain(s) == Drained([], s, true)
    ensures ParseOne(s).Malformed? ==> Drain(s) == Drained([], s, false)
    ensures ParseOne(s).Parsed? ==>
              && Drain(s).ok == Drain(s[ParseOne(s).next..]).ok && Drain(s).rest == Drain(s[ParseOne(s).next..]).rest
              && ready + Drain(s).commands == ready + Kept(ParseOne(s).args) + Drain(s[ParseOne(s).next..]).commands
  {
    hide ParseOne;
  }

  lemma FeedStep(buf: Data, chunks: seq<Data>, ready: seq<Command>)
    requires chunks != []
    ensures var d, all := Drain(buf + chunks[0]), FeedChunks(buf, chunks);
            if !d.ok then all == d
            else
              var rest := FeedChunks(d.rest, chunks[1..]);
              && all.ok == rest.ok && all.rest == rest.rest
              && ready + all.commands == (ready + d.commands) + rest.commands
  {
    hide Drain;
  }

  class RespParser {
    var buf: Data
    var ready: seq<Command>

    constructor ()
      ensures buf == [] && ready == []
    {
      buf, ready := [], [];
    }

    /** Takes in bytes and queues every whole command. A rejected stream keeps its bytes in the buffer. */
    method Feed(bytes: Data) returns (ok: bool)
      modifies this
      ensures ok == Drain(old(buf) + bytes).ok
      ensures ready == old(ready) + Drain(old(buf) + bytes).commands
      ensures buf == if ok then Drain(old(buf) + bytes).rest else old(buf) + bytes
    {
      hide ParseOne, Drain;
      buf := buf + bytes;
      var offset := 0;
      assert buf[0..] == buf;
      while true
        invariant buf == old(buf) + bytes && offset <= |buf|
        invariant Drain(buf).ok == Drain(buf[offset..]).ok && Drain(buf).rest == Drain(buf[offset..]).rest
        invariant old(ready) + Drain(buf).commands == ready + Drain(buf[offset..]).commands
        decreases |buf| - offset
      {
        var p := ParseCommand(buf[offset..]);
        DrainStep(buf[offset..], ready);
        match p
        case NeedMore =>
          buf := buf[offset..];
          return true;
        case Malformed =>
          return false;
        case Parsed(args, next) =>
          assert buf[offset..][next..] == buf[offset + next..];
          assert args == [] ==> ready + Kept(args) == ready;
          if args != [] { ready := ready + [args]; }
          offset := offset + next;
      }
    }

    /** Feeds chunk after chunk until one is rejected. */
    method FeedAll(chunks: seq<Data>) returns (ok: bool)
      modifies this
      ensures ok == FeedChunks(old(buf), chunks).ok
      ensures ready == old(ready) + FeedChunks(old(buf), chunks).commands
      ensures ok ==> buf == FeedChunks(old(buf), chunks).rest
    {
      hide Drain;
      ghost var start, before := buf, ready;
      assert chunks[0..] == chunks;
      assert ready + FeedChunks(buf, chunks).commands == before + FeedChunks(start, chunks).commands;
      for i := 0 to |chunks|
        invariant FeedChunks(start, chunks).ok == FeedChunks(buf, chunks[i..]).ok
        invariant FeedChunks(start, chunks).ok ==> FeedChunks(start, chunks).rest == FeedChunks(buf, chunks[i..]).rest
        invariant ready + FeedChunks(buf, chunks[i..]).commands == before + FeedChunks(start, chunks).commands
      {
        FeedStep(buf, chunks[i..], ready);
        assert chunks[i..][0] == chunks[i] && chunks[i..][1..] == chunks[i + 1..];
        var accepted := Feed(chunks[i]);
        if !accepted { return false; }
      }
      ok := true;
    }

    method Take() returns (out: seq<Command>)
      modifies this`ready
      ensures out == old(ready) && ready == []
    {
      out := ready;
      ready := [];
    }
  }
}
