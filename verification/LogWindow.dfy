/** UTF-8, for the text a log holds. */
module Utf8 {

  type Byte = b: int | 0 <= b < 256

  /** One character, one to four bytes. */
  function Encode(c: char): (bs: seq<Byte>)
    ensures 1 <= |bs| <= 4
  {
    var n := c as int;
    if n < 0x80 then [n]
    else if n < 0x800 then [0xC0 + n / 64, 0x80 + n % 64]
    else if n < 0x10000 then [0xE0 + n / 4096, 0x80 + n / 64 % 64, 0x80 + n % 64]
    else [0xF0 + n / 262144, 0x80 + n / 4096 % 64, 0x80 + n / 64 % 64, 0x80 + n % 64]
  }

  function EncodeAll(s: string): seq<Byte> {
    if |s| == 0 then [] else Encode(s[0]) + EncodeAll(s[1..])
  }

  function Width(lead: Byte): nat {
    if lead < 0x80 then 1 else if lead < 0xE0 then 2 else if lead < 0xF0 then 3 else 4
  }

  /** The value of a byte's payload bits, once its tag is taken off. */
  function Bits(b: int, tag: int): int { b - tag }

  function Payload(bs: seq<Byte>, width: nat): int
    requires 1 <= width <= 4 && width <= |bs|
  {
    if width == 1 then bs[0]
    else if width == 2 then Bits(bs[0], 0xC0) * 64 + Bits(bs[1], 0x80)
    else if width == 3 then Bits(bs[0], 0xE0) * 4096 + Bits(bs[1], 0x80) * 64 + Bits(bs[2], 0x80)
    else Bits(bs[0], 0xF0) * 262144 + Bits(bs[1], 0x80) * 4096 + Bits(bs[2], 0x80) * 64 + Bits(bs[3], 0x80)
  }

  predicate IsScalar(n: int) { 0 <= n < 0xD800 || 0xE000 <= n < 0x110000 }

  const REPLACEMENT: char := '\U{FFFD}'

  /** Character by character; a byte that starts no character is replaced. */
  function Decode(bs: seq<Byte>): string
    decreases |bs|
  {
    if |bs| == 0 then []
    else
      var w := Width(bs[0]);
      if w <= |bs| && IsScalar(Payload(bs, w)) then [Payload(bs, w) as char] + Decode(bs[w..])
      else [REPLACEMENT] + Decode(bs[1..])
  }

  lemma DecodeEncode(c: char, rest: seq<Byte>)
    ensures Decode(Encode(c) + rest) == [c] + Decode(rest)
  {
    var n, bs := c as int, Encode(c);
    var all := bs + rest;
    assert all[|bs|..] == rest;
    assert Width(all[0]) == |bs|;
    assert Payload(all, |bs|) == n by { PayloadOf(c, all); }
    assert IsScalar(n);
  }

  lemma PayloadOf(c: char, all: seq<Byte>)
    requires Encode(c) <= all
    ensures Payload(all, |Encode(c)|) == c as int
  {
    var n, bs := c as int, Encode(c);
    assert forall i :: 0 <= i < |bs| ==> all[i] == bs[i];
    assert n / 64 == n / 4096 * 64 + n / 64 % 64;
    assert n / 4096 == n / 262144 * 64 + n / 4096 % 64;
  }

  /** Whole characters decode first, whatever bytes follow. */
  lemma {:induction false} DecodeAfterText(s: string, rest: seq<Byte>)
    ensures Decode(EncodeAll(s) + rest) == s + Decode(rest)
  {
    hide Encode, Decode;
    if |s| == 0 {
      assert EncodeAll(s) + rest == rest;
    } else {
      DecodeAfterText(s[1..], rest);
      DecodeEncode(s[0], EncodeAll(s[1..]) + rest);
      assert EncodeAll(s) + rest == Encode(s[0]) + (EncodeAll(s[1..]) + rest);
      assert [s[0]] + (s[1..] + Decode(rest)) == s + Decode(rest);
    }
  }

  /** Decoding inverts encoding. */
  lemma DecodeOfEncoding(s: string)
    ensures Decode(EncodeAll(s)) == s
    ensures EncodeAll(s) == [] ==> s == ""
  {
    hide EncodeAll;
    DecodeAfterText(s, []);
    assert Decode([]) == "";
    assert EncodeAll(s) + [] == EncodeAll(s) && s + [] == s;
  }

  lemma {:induction false} EncodeAppend(a: string, b: string)
    ensures EncodeAll(a + b) == EncodeAll(a) + EncodeAll(b)
  {
    hide Encode;
    if |a| == 0 {
      assert a + b == b;
    } else {
      assert (a + b)[1..] == a[1..] + b;
      EncodeAppend(a[1..], b);
    }
  }
}

/** The run window: everything after the marker, read piece by piece. */
module LogWindow {
  import opened Utf8

  /** `text.split("\n")`: one more piece than there are newlines. */
  function Split(s: string): (r: seq<string>)
    ensures |r| > 0
  {
    if |s| == 0 then [""]
    else if s[0] == '\n' then [""] + Split(s[1..])
    else
      var rest := Split(s[1..]);
      [[s[0]] + rest[0]] + rest[1..]
  }

  function Join(pieces: seq<string>): string
    requires |pieces| > 0
  {
    if |pieces| == 1 then pieces[0] else pieces[0] + "\n" + Join(pieces[1..])
  }

  /** The complete lines, and the unterminated tail. */
  function CompleteLines(s: string): seq<string> { Split(s)[..|Split(s)| - 1] }

  function Tail(s: string): string { Split(s)[|Split(s)| - 1] }

  lemma JoinMore(pieces: seq<string>)
    requires |pieces| > 1
    ensures Join(pieces) == pieces[0] + "\n" + Join(pieces[1..])
  {
  }

  lemma PrependThree(w: string, x: string, y: string, z: string)
    ensures (w + x) + y + z == w + (x + y + z)
  {
    assert (w + x) + y == w + (x + y);
    assert (w + (x + y)) + z == w + ((x + y) + z);
  }

  lemma JoinLonger(c: char, rest: seq<string>)
    requires |rest| > 0
    ensures Join([[c] + rest[0]] + rest[1..]) == [c] + Join(rest)
  {
    var longer := [[c] + rest[0]] + rest[1..];
    if |rest| > 1 {
      hide Join;
      JoinMore(longer);
      JoinMore(rest);
      assert longer[1..] == rest[1..];
      PrependThree([c], rest[0], "\n", Join(rest[1..]));
    }
  }

  lemma {:induction false} JoinSplit(s: string)
    ensures Join(Split(s)) == s
    ensures forall p :: p in Split(s) ==> '\n' !in p
  {
    if |s| > 0 {
      JoinSplit(s[1..]);
      var rest := Split(s[1..]);
      if s[0] == '\n' {
        assert Split(s)[1..] == rest;
        assert s == "\n" + s[1..];
      } else {
        assert rest[0] in rest;
        JoinLonger(s[0], rest);
        assert s == [s[0]] + s[1..];
      }
    }
  }

  lemma SplitHead(c: char, t: string)
    ensures Split([c] + t) == if c == '\n' then [""] + Split(t) else [[c] + Split(t)[0]] + Split(t)[1..]
  {
    assert ([c] + t)[1..] == t;
  }

  lemma NewFirstPiece(first: string, r: seq<string>, d: seq<string>, x: seq<string>)
    requires |r| > 0 && d == r[..|r| - 1] + x
    ensures [first] + d == ([first] + r)[..|r|] + x
  {
  }

  lemma LongerFirstPiece(c: char, r: seq<string>, d: seq<string>, x: seq<string>)
    requires |r| > 1 && d == r[..|r| - 1] + x
    ensures [[c] + d[0]] + d[1..] == ([[c] + r[0]] + r[1..])[..|r| - 1] + x
  {
    NewFirstPiece([c] + r[0], r[1..], d[1..], x);
  }

  lemma SplitOnNewline(t: string, b: string)
    requires Split(t + b) == CompleteLines(t) + Split(Tail(t) + b)
    ensures Split(['\n'] + (t + b)) == CompleteLines(['\n'] + t) + Split(Tail(['\n'] + t) + b)
  {
    hide Split;
    var r := Split(t);
    SplitHead('\n', t);
    SplitHead('\n', t + b);
    NewFirstPiece("", r, Split(t + b), Split(Tail(t) + b));
    assert ([""] + r)[|r|] == r[|r| - 1];
  }

  lemma SplitLongerLine(c: char, t: string, b: string)
    requires Split(t + b) == CompleteLines(t) + Split(Tail(t) + b) && c != '\n' && |Split(t)| > 1
    ensures Split([c] + (t + b)) == CompleteLines([c] + t) + Split(Tail([c] + t) + b)
  {
    hide Split;
    var r := Split(t);
    SplitHead(c, t);
    SplitHead(c, t + b);
    LongerFirstPiece(c, r, Split(t + b), Split(Tail(t) + b));
    assert ([[c] + r[0]] + r[1..])[|r| - 1] == r[|r| - 1];
  }

  lemma SplitLongerTail(c: char, t: string, b: string)
    requires Split(t + b) == CompleteLines(t) + Split(Tail(t) + b) && c != '\n' && |Split(t)| == 1
    ensures Split([c] + (t + b)) == CompleteLines([c] + t) + Split(Tail([c] + t) + b)
  {
    hide Split;
    SplitHead(c, t);
    SplitHead(c, t + b);
    assert CompleteLines(t) == [] && CompleteLines([c] + t) == [];
    assert ([c] + Tail(t)) + b == [c] + (Tail(t) + b);
    SplitHead(c, Tail(t) + b);
  }

  /** Splitting more text resumes from the tail of what was split. */
  lemma {:induction false} SplitResumes(a: string, b: string)
    ensures Split(a + b) == CompleteLines(a) + Split(Tail(a) + b)
  {
    if |a| == 0 {
      assert a + b == b && Tail(a) + b == b && CompleteLines(a) == [];
    } else {
      hide Split, CompleteLines, Tail;
      var c, t := a[0], a[1..];
      SplitResumes(t, b);
      assert a == [c] + t && a + b == [c] + (t + b);
      if c == '\n' {
        SplitOnNewline(t, b);
      } else if |Split(t)| > 1 {
        SplitLongerLine(c, t, b);
      } else {
        SplitLongerTail(c, t, b);
      }
    }
  }

  lemma SplitParts(s: string)
    ensures CompleteLines(s) + [Tail(s)] == Split(s)
  {
  }

  /** What a file holds past an offset; nothing, when it has become shorter. */
  function Past(file: seq<Byte>, offset: nat): seq<Byte> { if offset <= |file| then file[offset..] else [] }

  /** The live reader: a byte offset, the lines kept, and the partial last line. */
  class Reader {
    const marker: nat
    var offset: nat
    var lines: seq<string>
    var partial: string
    ghost var text: string   // what the reads decoded, in order

    constructor (marker: nat)
      ensures this.marker == marker && offset == marker && text == "" && Consistent() && Whole()
    {
      this.marker, offset, lines, partial, text := marker, marker, [], "", "";
    }

    /** The lines are those of the text decoded so far. */
    ghost predicate Consistent()
      reads this
    {
      lines == CompleteLines(text) && partial == Tail(text)
    }

    /** No read so far cut a character: the bytes from the marker to the offset are the text's. */
    ghost predicate Whole()
      reads this
    {
      offset == marker + |EncodeAll(text)|
    }

    /** One read of any file: the bytes past the offset are decoded, and the lines resume. */
    method ReadWindow(file: seq<Byte>)
      requires Consistent()
      modifies this
      ensures Consistent() && text == old(text) + Decode(Past(file, old(offset)))
      ensures offset == (if old(offset) <= |file| then |file| else old(offset)) && old(lines) <= lines
      ensures Join(lines + [partial]) == text && forall l :: l in lines ==> '\n' !in l
    {
      hide EncodeAll, Split, Join;
      var raw := Past(file, offset);
      ghost var read := text + Decode(raw);
      if raw != [] {
        offset := offset + |raw|;
        var pieces := Split(partial + Decode(raw));
        SplitResumes(text, Decode(raw));
        partial := pieces[|pieces| - 1];
        lines := lines + pieces[..|pieces| - 1];
      } else {
        assert read == text;
      }
      text := read;
      JoinSplit(text);
      assert lines + [partial] == Split(text);
    }

    /** A static fixture may lack a final newline: its tail counts as a line. */
    method Flush()
      requires Consistent()
      modifies `lines, `partial
      ensures lines == AllLines(text)
    {
      if partial != "" {
        lines := lines + [partial];
        partial := "";
      }
    }
  }

  /** Every line of a text, its unterminated last one included. */
  function AllLines(s: string): seq<string> {
    if Tail(s) == "" then CompleteLines(s) else CompleteLines(s) + [Tail(s)]
  }

  /** Where whole characters were appended, a read decodes exactly them. */
  lemma WholeRead(file: seq<Byte>, marker: nat, text: string, appended: string)
    requires marker <= |file| && file[marker..] == EncodeAll(text + appended)
    ensures var offset := marker + |EncodeAll(text)|;
      && offset <= |file| == marker + |EncodeAll(text + appended)| && Past(file, offset) == EncodeAll(appended)
      && Decode(Past(file, offset)) == appended && Decode(file[marker..]) == text + appended
  {
    hide EncodeAll, Decode;
    EncodeAppend(text, appended);
    DecodeOfEncoding(appended);
    DecodeOfEncoding(text + appended);
    assert file[marker..][|EncodeAll(text)|..] == EncodeAll(appended);
  }

  /** What reads of the chunks decode, one after the other. */
  function DecodeEach(chunks: seq<seq<Byte>>): string {
    if |chunks| == 0 then "" else DecodeEach(chunks[..|chunks| - 1]) + Decode(chunks[|chunks| - 1])
  }

  function Bytes(chunks: seq<seq<Byte>>): seq<Byte> {
    if |chunks| == 0 then [] else Bytes(chunks[..|chunks| - 1]) + chunks[|chunks| - 1]
  }

  /** However the file grew between the reads, they leave the lines of the chunks decoded in turn. */
  method ReadInPieces(before: seq<Byte>, chunks: seq<seq<Byte>>) returns (lines: seq<string>, partial: string)
    ensures lines + [partial] == Split(DecodeEach(chunks))
  {
    hide Decode, Split, CompleteLines, Tail;
    var reader := new Reader(|before|);
    var file := before;
    assert chunks[..0] == [];
    for i := 0 to |chunks|
      invariant reader.Consistent() && reader.offset == |file| && reader.text == DecodeEach(chunks[..i])
    {
      assert chunks[..i + 1][..i] == chunks[..i];
      file := file + chunks[i];
      assert file[reader.offset..] == chunks[i];
      reader.ReadWindow(file);
    }
    assert chunks[..|chunks|] == chunks;
    SplitParts(reader.text);
    lines, partial := reader.lines, reader.partial;
    assert lines + [partial] == Split(reader.text);
  }

  /** Chunks of whole characters decode to what the whole file decodes to. */
  lemma {:induction false} WholePieces(texts: seq<string>, chunks: seq<seq<Byte>>)
    requires |texts| == |chunks| && forall i :: 0 <= i < |texts| ==> chunks[i] == EncodeAll(texts[i])
    ensures DecodeEach(chunks) == Concat(texts) == Decode(Bytes(chunks)) && Bytes(chunks) == EncodeAll(Concat(texts))
  {
    hide EncodeAll, Decode;
    if |texts| == 0 {
      DecodeOfEncoding("");
      NoBytes();
    } else {
      var n := |texts| - 1;
      WholePieces(texts[..n], chunks[..n]);
      EncodeAppend(Concat(texts[..n]), texts[n]);
      DecodeOfEncoding(texts[n]);
      DecodeOfEncoding(Concat(texts));
    }
  }

  lemma NoBytes()
    ensures EncodeAll("") == [] && Decode([]) == ""
  {
  }

  /** A read that cuts a character leaves replacement characters where one read of the file has it. */
  lemma CutCharacter()
    ensures DecodeEach([[0xC3], [0xA9]]) == [REPLACEMENT, REPLACEMENT] && Decode(Bytes([[0xC3], [0xA9]])) == [0xE9 as char]
  {
    var lead: seq<Byte>, rest: seq<Byte> := [0xC3], [0xA9];
    var chunks := [lead, rest];
    assert chunks[..1] == [lead] && [lead][..0] == [];
    assert lead[1..] == [] && rest[1..] == [] && (lead + rest)[2..] == [];
    assert Decode(lead) == [REPLACEMENT] && Decode(rest) == [REPLACEMENT];
    assert DecodeEach([lead]) == [REPLACEMENT] && Bytes([lead]) == lead;
  }

  function Concat(chunks: seq<string>): string {
    if |chunks| == 0 then "" else Concat(chunks[..|chunks| - 1]) + chunks[|chunks| - 1]
  }
}
