/** The tokenizer: a cursor over a byte buffer that skips whitespace and
    sorts each token into one of the token kinds, ending with a single
    end-of-input token.  A byte no rule accepts is a lexer fault (the source
    traps); here it is an error result carrying the byte's offset. */
module Lexer {
  import opened Bytes
  import opened Mml

  // ---------------------------------------------------------------------------
  // Byte classes (fixed to ASCII)
  // ---------------------------------------------------------------------------

  /** The length of the UTF-8 sequence a lead byte announces; 1 for an ASCII,
      invalid or continuation byte. */
  function Utf8CharLen(c: Byte): (n: nat)
    ensures 1 <= n <= 4
    ensures c < 0x80 ==> n == 1
  {
    if c < 0x80 then 1
    else if 0xC0 <= c < 0xE0 then 2
    else if 0xE0 <= c < 0xF0 then 3
    else if 0xF0 <= c < 0xF8 then 4
    else 1
  }

  /** `isspace` in the C locale: space, tab, newline, vertical tab, form feed, carriage return. */
  predicate IsSpace(c: Byte)
  {
    c == 0x20 || 0x09 <= c <= 0x0D
  }

  predicate IsDigit(c: Byte)
  {
    '0' as int <= c <= '9' as int
  }

  predicate IsAlnum(c: Byte)
  {
    IsDigit(c) || 'a' as int <= c <= 'z' as int || 'A' as int <= c <= 'Z' as int
  }

  /** Identifier bytes: alphanumerics and every byte of a multi-byte UTF-8 sequence. */
  predicate IsIdentChar(c: Byte)
  {
    IsAlnum(c) || c >= 0x80
  }

  /** The three byte-runs the lexer scans: `@name`, `!name`, and digits. */
  datatype RunClass = IdentRun | DefinitionRun | DigitRun

  predicate InRun(rc: RunClass, c: Byte)
  {
    match rc
    case IdentRun => IsIdentChar(c)
    case DefinitionRun => IsIdentChar(c) && !IsSpace(c) && c != '{' as int
    case DigitRun => IsDigit(c)
  }

  predicate AllSpace(data: seq<Byte>, from: nat, to: nat)
    requires to <= |data|
  {
    forall k | from <= k < to :: IsSpace(data[k])
  }

  predicate AllInRun(data: seq<Byte>, rc: RunClass, from: nat, to: nat)
    requires to <= |data|
  {
    forall k | from <= k < to :: InRun(rc, data[k])
  }

  /** The tokens a single byte makes on its own. */
  function SingleByteKind(c: Byte): Option<TokenKind>
  {
    if 'a' as int <= c <= 'g' as int || c == 'r' as int then Some(NoteLetter)
    else if c in {'o' as int, '<' as int, '>' as int, 'l' as int, 'v' as int, 't' as int} then Some(Command)
    else if c == '+' as int then Some(Plus)
    else if c == '-' as int then Some(Minus)
    else if c == '.' as int then Some(Dot)
    else if c == ';' as int then Some(Semicolon)
    else if c == '}' as int then Some(RBrace)
    else if c == '{' as int then Some(LBrace)
    else if c == ']' as int then Some(RBracket)
    else if c == '[' as int then Some(LBracket)
    else if c == ':' as int then Some(Colon)
    else None
  }

  /** The bytes a token may start with. */
  predicate IsLeadByte(c: Byte)
  {
    SingleByteKind(c).Some? || c == '@' as int || c == '!' as int || IsDigit(c)
  }

  // ---------------------------------------------------------------------------
  // Specification of the scanner
  // ---------------------------------------------------------------------------

  /** Where `skip_whitespace` leaves the cursor. */
  function SkipSpace(data: seq<Byte>, size: nat, off: nat): (r: nat)
    requires off <= size <= |data|
    ensures off <= r <= size
    ensures AllSpace(data, off, r)
    ensures r == size || !IsSpace(data[r])
    decreases size - off
  {
    if off < size && IsSpace(data[off]) then SkipSpace(data, size, off + 1) else off
  }

  /** The end of the maximal run of class `rc` that starts at `j`. */
  function RunEnd(data: seq<Byte>, size: nat, j: nat, rc: RunClass): (r: nat)
    requires j <= size <= |data|
    ensures j <= r <= size
    ensures AllInRun(data, rc, j, r)
    ensures r == size || !InRun(rc, data[r])
    decreases size - j
  {
    if j < size && InRun(rc, data[j]) then RunEnd(data, size, j + 1, rc) else j
  }

  /** What the lexer sees at `off`: a token and the new cursor, or a fault at a byte offset. */
  datatype Lexed = Lexed(tok: Token, next: nat) | Unlexable(at: nat)

  /** The view of a non-final token is well placed and agrees with its kind. */
  predicate WellClassified(data: seq<Byte>, size: nat, t: Token)
    requires size <= |data|
  {
    var o, e := t.offset, t.offset + t.size;
    && e <= size && t.size >= 1
    && if t.kind == Number then
         AllInRun(data, DigitRun, o, e) && (e == size || !IsDigit(data[e]))
       else if t.kind == Expansion then
         data[o] == '@' as int && AllInRun(data, IdentRun, o + 1, e) && (e == size || !IsIdentChar(data[e]))
       else if t.kind == Definition then
         data[o] == '!' as int && AllInRun(data, DefinitionRun, o + 1, e) && (e == size || !InRun(DefinitionRun, data[e]))
       else
         t.size == 1 && SingleByteKind(data[o]) == Some(t.kind)
  }

  /** The token `read_next_token` makes at the first non-space byte `o`. */
  function TokenAt(data: seq<Byte>, size: nat, o: nat): (r: Lexed)
    requires o < size <= |data|
    ensures r.Unlexable? <==> !IsLeadByte(data[o])
    ensures r.Unlexable? ==> r.at == o
    ensures r.Lexed? ==>
              && r.tok.kind != Eof && r.tok.offset == o && WellClassified(data, size, r.tok)
              && r.next == o + r.tok.size
  {
    var n := Utf8CharLen(data[o]);
    var u := if o + n > size then size - o else n;
    var c := data[o];
    if SingleByteKind(c).Some? then
      Lexed(Token(SingleByteKind(c).value, o, u), o + u)
    else if c == '@' as int then
      var e := RunEnd(data, size, o + 1, IdentRun);
      Lexed(Token(Expansion, o, e - o), e)
    else if c == '!' as int then
      var e := RunEnd(data, size, o + 1, DefinitionRun);
      Lexed(Token(Definition, o, e - o), e)
    else if IsDigit(c) then
      var e := RunEnd(data, size, o, DigitRun);
      Lexed(Token(Number, o, e - o), e)
    else
      Unlexable(o)
  }

  /** `read_next_token`: skip whitespace, then the end-of-input token or the token at the first non-space byte. */
  function NextToken(data: seq<Byte>, size: nat, off: nat): (r: Lexed)
    requires off <= size <= |data|
    ensures r.Unlexable? <==> SkipSpace(data, size, off) < size && !IsLeadByte(data[SkipSpace(data, size, off)])
    ensures r.Unlexable? ==> off <= r.at < size && r.at == SkipSpace(data, size, off)
    ensures r.Lexed? && r.tok.kind == Eof ==> r.tok == Token(Eof, 0, 0) && r.next == size && AllSpace(data, off, size)
    ensures r.Lexed? && r.tok.kind != Eof ==>
              && WellClassified(data, size, r.tok)
              && off <= r.tok.offset && AllSpace(data, off, r.tok.offset)
              && r.next == r.tok.offset + r.tok.size
  {
    var o := SkipSpace(data, size, off);
    if o == size then Lexed(Token(Eof, 0, 0), o) else TokenAt(data, size, o)
  }

  /** The whole token stream from `off`: the unlexable offset on a fault. */
  function LexAll(data: seq<Byte>, size: nat, off: nat): (r: Result<seq<Token>, nat>)
    requires off <= size <= |data|
    decreases size - off
  {
    match NextToken(data, size, off)
    case Unlexable(at) => Err(at)
    case Lexed(t, next) =>
      if t.kind == Eof then Ok([t])
      else
        match LexAll(data, size, next)
        case Err(at) => Err(at)
        case Ok(rest) => Ok([t] + rest)
  }

  function Prepend(ts: seq<Token>, r: Result<seq<Token>, nat>): Result<seq<Token>, nat>
  {
    match r
    case Ok(rest) => Ok(ts + rest)
    case Err(at) => Err(at)
  }

  // ---------------------------------------------------------------------------
  // Properties of the token stream
  // ---------------------------------------------------------------------------

  /** The token stream from `off`.  A non-recursive alias of `LexAll`: stating
      the stream lemmas through it lets the verifier unfold the recursive
      definition only one level at a time. */
  ghost function Stream(data: seq<Byte>, size: nat, off: nat): Result<seq<Token>, nat>
    requires off <= size <= |data|
  {
    LexAll(data, size, off)
  }

  /** A successful stream ends with the one and only end-of-input token;
      a fault names a non-space byte no rule accepts. */
  lemma {:induction false} LexAllEndsWithEof(data: seq<Byte>, size: nat, off: nat)
    requires off <= size <= |data|
    ensures Stream(data, size, off).Ok? ==>
              var ts := Stream(data, size, off).value;
              && |ts| >= 1 && ts[|ts| - 1] == Token(Eof, 0, 0)
              && forall i | 0 <= i < |ts| - 1 :: ts[i].kind != Eof
    ensures Stream(data, size, off).Err? ==>
              var at := Stream(data, size, off).error;
              off <= at < size && !IsLeadByte(data[at]) && !IsSpace(data[at])
    decreases size - off
  {
    var r := NextToken(data, size, off);
    LexAllStep(data, size, off);
    if r.Lexed? && r.tok.kind != Eof {
      LexAllEndsWithEof(data, size, r.next);
      if Stream(data, size, r.next).Ok? {
        var rest := Stream(data, size, r.next).value;
        assert Stream(data, size, off).value == [r.tok] + rest;
      }
    }
  }

  /** Token `t` agrees with its kind and only whitespace lies between `from` and its start. */
  predicate Placed(data: seq<Byte>, size: nat, from: nat, t: Token)
    requires size <= |data|
  {
    WellClassified(data, size, t) && from <= t.offset && AllSpace(data, from, t.offset)
  }

  /** The tokens are disjoint, contiguous, in increasing order, separated only
      by whitespace from `base` on, each agreeing with its kind, and only
      whitespace follows the last one before the end-of-input token. */
  ghost predicate Layout(data: seq<Byte>, size: nat, base: nat, ts: seq<Token>)
    requires size <= |data|
    decreases |ts|
  {
    if |ts| <= 1 then |ts| == 1 && base <= size && AllSpace(data, base, size)
    else Placed(data, size, base, ts[0]) && Layout(data, size, ts[0].offset + ts[0].size, ts[1..])
  }

  lemma {:induction false} LexAllLayout(data: seq<Byte>, size: nat, off: nat)
    requires off <= size <= |data|
    ensures Stream(data, size, off).Ok? ==> Layout(data, size, off, Stream(data, size, off).value)
    decreases size - off
  {
    var r := NextToken(data, size, off);
    LexAllStep(data, size, off);
    if r.Lexed? && r.tok.kind != Eof {
      LexAllLayout(data, size, r.next);
      if Stream(data, size, r.next).Ok? {
        var rest := Stream(data, size, r.next).value;
        LexAllEndsWithEof(data, size, r.next);
        assert ([r.tok] + rest)[1..] == rest;
      }
    }
  }

  // ---------------------------------------------------------------------------
  // The scanner as the source runs it
  // ---------------------------------------------------------------------------

  class Scanner {
    const data: seq<Byte>
    const size: nat
    var offset: nat

    ghost predicate Valid()
      reads this
    {
      size <= |data| && offset <= size
    }

    constructor (data: seq<Byte>, size: nat)
      requires size <= |data|
      ensures Valid() && this.data == data && this.size == size && offset == 0
    {
      this.data := data;
      this.size := size;
      offset := 0;
    }

    /** `skip_whitespace`. */
    method SkipWhitespace()
      requires Valid()
      modifies this`offset
      ensures Valid() && offset == SkipSpace(data, size, old(offset))
    {
      while offset < size && IsSpace(data[offset])
        invariant offset <= size
        invariant SkipSpace(data, size, offset) == SkipSpace(data, size, old(offset))
        decreases size - offset
      {
        offset := offset + 1;
      }
    }

    /** The scan loop of the `@`, `!` and digit cases: the length of the run from `offset + start`. */
    method ScanRun(start: nat, rc: RunClass) returns (length: nat)
      requires Valid() && offset + start <= size
      ensures offset + length == RunEnd(data, size, offset + start, rc)
    {
      length := start;
      while offset + length < size && InRun(rc, data[offset + length])
        invariant offset + start <= offset + length <= size
        invariant RunEnd(data, size, offset + length, rc) == RunEnd(data, size, offset + start, rc)
        decreases size - length
      {
        length := length + 1;
      }
    }

    /** `read_next_token`: the token at the cursor, moving the cursor past it. */
    method ReadNextToken() returns (r: Lexed)
      requires Valid()
      modifies this`offset
      ensures Valid() && r == NextToken(data, size, old(offset))
      ensures r.Lexed? ==> offset == r.next
    {
      SkipWhitespace();
      if offset == size {
        return Lexed(Token(Eof, 0, 0), offset);
      }
      r := ReadTokenAt();
    }

    /** The part of `read_next_token` after the whitespace: classify the byte under the cursor. */
    method ReadTokenAt() returns (r: Lexed)
      requires Valid() && offset < size
      modifies this`offset
      ensures Valid() && r == TokenAt(data, size, old(offset))
      ensures r.Lexed? ==> offset == r.next
    {
      var o := offset;
      var u8len := Utf8CharLen(data[o]);
      if o + u8len > size {
        u8len := size - o;
      }
      var c := data[o];
      var kind := Unknown;
      var viewSize := u8len;
      if SingleByteKind(c).Some? {
        kind := SingleByteKind(c).value;
      } else if c == '@' as int {
        viewSize := ScanRun(1, IdentRun);
        kind := Expansion;
      } else if c == '!' as int {
        viewSize := ScanRun(1, DefinitionRun);
        kind := Definition;
      } else if IsDigit(c) {
        viewSize := ScanRun(0, DigitRun);
        kind := Number;
      }
      if kind == Unknown {
        return Unlexable(o);
      }
      offset := offset + viewSize;
      r := Lexed(Token(kind, o, viewSize), offset);
    }
  }

  /** `strlen`: the index of the first NUL byte. */
  function StrLen(s: seq<Byte>): (n: nat)
    requires 0 in s
    ensures n < |s| && s[n] == 0
    ensures forall k | 0 <= k < n :: s[k] != 0
  {
    if s[0] == 0 then 0 else 1 + StrLen(s[1..])
  }

  /** The byte count `mml_tokenize` scans: `length`, or the string length when `length` is 0. */
  function EffectiveLength(source: seq<Byte>, length: nat): nat
    requires length <= |source| && (length == 0 ==> 0 in source)
  {
    if length == 0 then StrLen(source) else length
  }

  /** One step of the token stream: the next token is prepended to the rest. */
  lemma LexAllStep(data: seq<Byte>, size: nat, off: nat)
    requires off <= size <= |data|
    ensures var r := NextToken(data, size, off);
            && (r.Unlexable? ==> Stream(data, size, off) == Err(r.at))
            && (r.Lexed? && r.tok.kind == Eof ==> Stream(data, size, off) == Ok([r.tok]))
            && (r.Lexed? && r.tok.kind != Eof ==> r.next > off && Stream(data, size, off) == Prepend([r.tok], Stream(data, size, r.next)))
  {
  }

  lemma PrependAssoc(a: seq<Token>, b: seq<Token>, r: Result<seq<Token>, nat>)
    ensures Prepend(a, Prepend(b, r)) == Prepend(a + b, r)
  {
    if r.Ok? {
      assert a + (b + r.value) == (a + b) + r.value;
    }
  }

  /** `mml_tokenize`: read tokens into a growing array until the end-of-input token. */
  method Tokenize(source: seq<Byte>, length: nat) returns (r: Result<seq<Token>, nat>)
    requires length <= |source|
    requires length == 0 ==> 0 in source
    ensures r == LexAll(source, EffectiveLength(source, length), 0)
  {
    var size := if length == 0 then StrLen(source) else length;
    var lexer := new Scanner(source, size);
    var tokens := new DynArray<Token>();
    assert Prepend([], LexAll(source, size, 0)) == LexAll(source, size, 0) by {
      if LexAll(source, size, 0).Ok? {
        assert [] + LexAll(source, size, 0).value == LexAll(source, size, 0).value;
      }
    }
    while true
      invariant lexer.Valid() && tokens.Valid()
      invariant lexer.data == source && lexer.size == size
      invariant LexAll(source, size, 0) == Prepend(tokens.items, LexAll(source, size, lexer.offset))
      decreases size - lexer.offset
    {
      ghost var before := lexer.offset;
      LexAllStep(source, size, before);
      var t := lexer.ReadNextToken();
      if t.Unlexable? {
        return Err(t.at);
      }
      PrependAssoc(tokens.items, [t.tok], LexAll(source, size, lexer.offset));
      tokens.Append(t.tok);
      if t.tok.kind == Eof {
        return Ok(tokens.items);
      }
    }
  }
}
