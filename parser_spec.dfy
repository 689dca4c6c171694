/** The meaning of the recursive-descent parser, as functions of the token
    array, the source buffer, the macro table and the token index.  Each
    function answers what the corresponding parser routine does from index
    `i`: the events it appends to the current output sequence and where it
    leaves the index, that the construct is not there, or the fault it
    aborts with. */
module ParserSpec {
  import opened Bytes
  import opened Mml

  /** The parser's input: the token array and the buffer the views point into. */
  datatype Input = Input(toks: seq<Token>, src: seq<Byte>)

  /** A macro table entry: the name bytes after `!` and the copied body. */
  datatype Macro = Macro(name: seq<Byte>, body: seq<Event>)

  /** Why `mml_parse` returns -1 (`EmptyInput`) or aborts (all other cases). */
  datatype ParseError =
    | EmptyInput
    | EmptyIdentifier(at: nat)
    | UndefinedMacro(name: seq<Byte>)
    | UnexpectedToken(at: nat)
    | MissingBracket(at: nat)
    | MissingLoopCount(at: nat)
    | MissingLBrace(at: nat)
    | MissingRBrace(at: nat)

  // ---------------------------------------------------------------------------
  // Well-formed input
  // ---------------------------------------------------------------------------

  predicate IsDigitByte(c: Byte)
  {
    '0' as int <= c <= '9' as int
  }

  predicate AllDigits(s: seq<Byte>)
  {
    forall k | 0 <= k < |s| :: IsDigitByte(s[k])
  }

  /** The view of `t` is non-empty and inside the buffer. */
  predicate ViewIn(src: seq<Byte>, t: Token)
  {
    t.size >= 1 && t.offset + t.size <= |src|
  }

  /** What the parser reads through a token's view: the first byte of a note
      or command, the name after `@` or `!`, and the digits of a number,
      which are copied into a 32-byte buffer with a terminating NUL. */
  predicate TokenFits(src: seq<Byte>, t: Token)
  {
    if t.kind == Number then
      ViewIn(src, t) && t.size <= 31 && AllDigits(src[t.offset..t.offset + t.size])
    else if t.kind == NoteLetter || t.kind == Command || t.kind == Expansion || t.kind == Definition then
      ViewIn(src, t)
    else true
  }

  predicate FitsAt(inp: Input, k: nat)
    requires k < |inp.toks|
  {
    TokenFits(inp.src, inp.toks[k])
  }

  /** The token arrays the parser is given: a single end-of-input token at the
      end, and views the parser can read. */
  predicate Fits(inp: Input)
  {
    && |inp.toks| >= 1
    && inp.toks[|inp.toks| - 1].kind == Eof
    && (forall k | 0 <= k < |inp.toks| - 1 :: inp.toks[k].kind != Eof)
    && (forall k | 0 <= k < |inp.toks| :: FitsAt(inp, k))
  }

  /** The inputs the parser accepts. */
  type FitInput = inp: Input | Fits(inp) witness Input([Token(Eof, 0, 0)], [])

  function Kind(inp: Input, i: nat): TokenKind
    requires i < |inp.toks|
  {
    inp.toks[i].kind
  }

  /** A token that is not the end-of-input token is followed by another token. */
  lemma NotLast(inp: Input, i: nat)
    requires Fits(inp) && i < |inp.toks| && Kind(inp, i) != Eof
    ensures i + 1 < |inp.toks|
  {
  }

  // ---------------------------------------------------------------------------
  // Numbers (`strtoul` on the token's digits, stored in an `unsigned`)
  // ---------------------------------------------------------------------------

  /** The decimal value of a digit string. */
  function DecimalValue(s: seq<Byte>): nat
    requires AllDigits(s)
  {
    if |s| == 0 then 0 else 10 * DecimalValue(s[..|s| - 1]) + (s[|s| - 1] - '0' as int)
  }

  function Pow10(n: nat): nat
  {
    if n == 0 then 1 else 10 * Pow10(n - 1)
  }

  /** `strtoul` saturates at ULONG_MAX (64-bit `unsigned long`); the
      assignment to a 32-bit `unsigned` keeps the low 32 bits. */
  function StrToUnsigned(s: seq<Byte>): (v: Uint32)
    requires AllDigits(s)
    ensures DecimalValue(s) < Two32 ==> v == DecimalValue(s)
    ensures DecimalValue(s) >= Two64 ==> v == Two32 - 1
  {
    var d := DecimalValue(s);
    if d >= Two64 then Two32 - 1 else d % Two32
  }

  /** A string of `n` digits denotes less than 10^n. */
  lemma {:induction false} DecimalValueBound(s: seq<Byte>)
    requires AllDigits(s)
    ensures DecimalValue(s) < Pow10(|s|)
  {
    if |s| > 0 {
      assert AllDigits(s[..|s| - 1]);
      DecimalValueBound(s[..|s| - 1]);
    }
  }

  /** Numbers of up to nine digits are read exactly. */
  lemma ShortNumbersExact(s: seq<Byte>)
    requires AllDigits(s) && |s| <= 9
    ensures StrToUnsigned(s) == DecimalValue(s)
  {
    DecimalValueBound(s);
    Pow10Monotone(|s|, 9);
    assert Pow10(9) == 1_000_000_000;
  }

  lemma {:induction false} Pow10Monotone(m: nat, n: nat)
    requires m <= n
    ensures Pow10(m) <= Pow10(n)
    decreases n
  {
    if m < n {
      Pow10Monotone(m, n - 1);
    }
  }

  function TokenBytes(inp: Input, i: nat): seq<Byte>
    requires Fits(inp) && i < |inp.toks| && ViewIn(inp.src, inp.toks[i])
  {
    inp.src[inp.toks[i].offset..inp.toks[i].offset + inp.toks[i].size]
  }

  /** The value of the number token at `i`. */
  function NumberAt(inp: Input, i: nat): Uint32
    requires Fits(inp) && i < |inp.toks| && Kind(inp, i) == Number
  {
    assert FitsAt(inp, i);
    StrToUnsigned(TokenBytes(inp, i))
  }

  /** The first byte of the view of token `i` (the pitch letter or command letter). */
  function FirstByte(inp: Input, i: nat): Byte
    requires Fits(inp) && i < |inp.toks| && (Kind(inp, i) == NoteLetter || Kind(inp, i) == Command)
  {
    assert FitsAt(inp, i);
    inp.src[inp.toks[i].offset]
  }

  /** The identifier of an `@name` or `!name` token: its view without the first byte. */
  function Ident(inp: Input, i: nat): seq<Byte>
    requires Fits(inp) && i < |inp.toks| && (Kind(inp, i) == Expansion || Kind(inp, i) == Definition)
  {
    assert FitsAt(inp, i);
    inp.src[inp.toks[i].offset + 1..inp.toks[i].offset + inp.toks[i].size]
  }

  // ---------------------------------------------------------------------------
  // Macro table
  // ---------------------------------------------------------------------------

  /** `macro_search`: the earliest entry whose name equals `name`. */
  function MacroLookup(table: seq<Macro>, name: seq<Byte>): Option<Macro>
  {
    if |table| == 0 then None
    else if table[0].name == name then Some(table[0])
    else MacroLookup(table[1..], name)
  }

  /** The lookup finds an entry exactly when some entry has the name, and the
      entry it finds is the first such entry. */
  lemma {:induction false} MacroLookupFirst(table: seq<Macro>, name: seq<Byte>)
    ensures MacroLookup(table, name).None? <==> forall k | 0 <= k < |table| :: table[k].name != name
    ensures MacroLookup(table, name).Some? ==>
              exists k | 0 <= k < |table| ::
                && table[k] == MacroLookup(table, name).value
                && table[k].name == name
                && forall j | 0 <= j < k :: table[j].name != name
  {
    if |table| > 0 && table[0].name != name {
      MacroLookupFirst(table[1..], name);
      if MacroLookup(table, name).Some? {
        var k :| 0 <= k < |table| - 1 && table[1..][k] == MacroLookup(table, name).value
                 && table[1..][k].name == name && forall j | 0 <= j < k :: table[1..][j].name != name;
        assert table[k + 1] == MacroLookup(table, name).value;
        forall j | 0 <= j < k + 1
          ensures table[j].name != name
        {
          if j > 0 {
            assert table[j] == table[1..][j - 1];
          }
        }
      } else {
        forall k | 0 <= k < |table|
          ensures table[k].name != name
        {
          if k > 0 {
            assert table[k] == table[1..][k - 1];
          }
        }
      }
    }
  }

  /** Appending to the table never changes what an existing name finds: the
      first definition of a name wins, and a new name finds its new entry. */
  lemma {:induction false} MacroLookupAppend(table: seq<Macro>, m: Macro, name: seq<Byte>)
    ensures MacroLookup(table, name).Some? ==> MacroLookup(table + [m], name) == MacroLookup(table, name)
    ensures MacroLookup(table, name).None? && m.name == name ==> MacroLookup(table + [m], name) == Some(m)
    ensures MacroLookup(table, name).None? && m.name != name ==> MacroLookup(table + [m], name).None?
  {
    if |table| == 0 {
      assert table + [m] == [m];
    } else {
      assert (table + [m])[1..] == table[1..] + [m];
      MacroLookupAppend(table[1..], m, name);
    }
  }

  // ---------------------------------------------------------------------------
  // Steps
  // ---------------------------------------------------------------------------

  /** What an action routine does: append `evs` and move to `next`, return
      false without consuming anything, or abort. */
  datatype Step = Matched(evs: seq<Event>, next: nat) | NoMatch | Failed(err: ParseError)

  /** What a body loop does: append `evs` and stop at `next`, or abort. */
  datatype Scan = Scanned(evs: seq<Event>, next: nat) | ScanFailed(err: ParseError)

  /** The three body loops and the token kinds each stops at. */
  datatype Scope = LoopBody | BreakBody | MacroBody

  predicate Stops(scope: Scope, k: TokenKind)
  {
    k == Eof ||
    match scope
    case LoopBody => k == RBracket || k == Colon
    case BreakBody => k == RBracket
    case MacroBody => k == RBrace
  }

  /** The number of consecutive DOT tokens from `j`. */
  function DotRun(inp: Input, j: nat): (n: nat)
    requires Fits(inp) && j < |inp.toks|
    ensures j + n < |inp.toks| && Kind(inp, j + n) != Dot
    ensures forall k | j <= k < j + n :: Kind(inp, k) == Dot
    decreases |inp.toks| - j
  {
    if Kind(inp, j) == Dot then 1 + DotRun(inp, j + 1) else 0
  }

  /** The accidental at `j`, just after a note letter: +1 for `+`, -1 for `-`, otherwise 0. */
  function AccidentalAt(inp: Input, j: nat): int
    requires j < |inp.toks|
  {
    if Kind(inp, j) == Plus then 1 else if Kind(inp, j) == Minus then -1 else 0
  }

  /** Where the optional accidental after the note letter at `i` ends. */
  function AfterAccidental(inp: Input, i: nat): (k: nat)
    requires Fits(inp) && i < |inp.toks| && Kind(inp, i) != Eof
    ensures k < |inp.toks|
  {
    if AccidentalAt(inp, i + 1) != 0 then i + 2 else i + 1
  }

  /** The optional number at `j`: its value, or 0 when there is none. */
  function OptNumberAt(inp: Input, j: nat): Uint32
    requires Fits(inp) && j < |inp.toks|
  {
    if Kind(inp, j) == Number then NumberAt(inp, j) else 0
  }

  /** Where the optional number at `j` ends. */
  function AfterNumber(inp: Input, j: nat): (k: nat)
    requires Fits(inp) && j < |inp.toks|
    ensures k < |inp.toks|
  {
    if Kind(inp, j) == Number then j + 1 else j
  }

  /** `parse_note`. */
  function ParseNoteF(inp: Input, i: nat): (r: Step)
    requires Fits(inp) && i < |inp.toks|
    ensures r.Matched? ==> i < r.next < |inp.toks|
    ensures !r.Failed?
  {
    if Kind(inp, i) != NoteLetter then NoMatch
    else
      var k := AfterAccidental(inp, i);
      var m := AfterNumber(inp, k);
      Matched([Note(FirstByte(inp, i), OptNumberAt(inp, k), DotRun(inp, m) % Two32, AccidentalAt(inp, i + 1), false, false)],
              m + DotRun(inp, m))
  }

  /** `parse_command`. */
  function ParseCommandF(inp: Input, i: nat): (r: Step)
    requires Fits(inp) && i < |inp.toks|
    ensures r.Matched? ==> i < r.next < |inp.toks|
    ensures !r.Failed?
  {
    if Kind(inp, i) != Command then NoMatch
    else Matched([Control(FirstByte(inp, i), OptNumberAt(inp, i + 1))], AfterNumber(inp, i + 1))
  }

  /** `parse_expansion`: a by-value copy of the first body registered under the name. */
  function ParseExpansionF(inp: Input, table: seq<Macro>, i: nat): (r: Step)
    requires Fits(inp) && i < |inp.toks|
    ensures r.Matched? ==> r.next == i + 1 < |inp.toks|
  {
    if Kind(inp, i) != Expansion then NoMatch
    else if inp.toks[i].size - 1 == 0 then Failed(EmptyIdentifier(i))
    else
      match MacroLookup(table, Ident(inp, i))
      case None => Failed(UndefinedMacro(Ident(inp, i)))
      case Some(m) => Matched(m.body, i + 1)
  }

  /** `(n - 1)` in 32-bit unsigned arithmetic: the iteration count of the unrolling loop. */
  function LoopIterations(n: Uint32): Uint32
  {
    (n + Two32 - 1) % Two32
  }

  /** `k` copies of `s`, one after the other. */
  function Repeat(s: seq<Event>, k: nat): seq<Event>
  {
    if k == 0 then [] else Repeat(s, k - 1) + s
  }

  /** The sequence the unrolling loop appends for a loop with count `n`. */
  function Unroll(body: seq<Event>, brk: seq<Event>, n: Uint32): seq<Event>
  {
    Repeat(body + brk, LoopIterations(n)) + body
  }

  /** `parse_loop` after its `[`: the body up to `]`, `:` or the end, the
      optional break part, then `]` and the count. */
  function ParseLoopF(inp: Input, table: seq<Macro>, i: nat): (r: Step)
    requires Fits(inp) && i < |inp.toks|
    ensures r.Matched? ==> i < r.next < |inp.toks|
    decreases |inp.toks| - i, 1
  {
    if Kind(inp, i) != LBracket then NoMatch
    else
      match ScanF(inp, table, LoopBody, i + 1)
      case ScanFailed(e) => Failed(e)
      case Scanned(body, j) =>
        match BreakScan(inp, table, j)
        case ScanFailed(e) => Failed(e)
        case Scanned(brk, k) => LoopClose(inp, body, brk, k)
  }

  /** `parse_loop` once both parts have been scanned. */
  lemma ParseLoopScanned(inp: Input, table: seq<Macro>, i: nat, body: seq<Event>, j: nat, brk: seq<Event>, k: nat)
    requires Fits(inp) && i < |inp.toks| && Kind(inp, i) == LBracket
    requires ScanF(inp, table, LoopBody, i + 1) == Scanned(body, j)
    requires BreakScan(inp, table, j) == Scanned(brk, k)
    ensures ParseLoopF(inp, table, i) == LoopClose(inp, body, brk, k)
  {
  }

  /** The optional break part at `j`: `:` and the actions up to `]` or the end. */
  function BreakScan(inp: Input, table: seq<Macro>, j: nat): (r: Scan)
    requires Fits(inp) && j < |inp.toks|
    ensures r.Scanned? ==> j <= r.next < |inp.toks|
    decreases |inp.toks| - j, 0
  {
    if Kind(inp, j) == Colon then ScanF(inp, table, BreakBody, j + 1) else Scanned([], j)
  }

  /** The end of a loop at `k`: `]`, then the count, then the unrolled events. */
  function LoopClose(inp: Input, body: seq<Event>, brk: seq<Event>, k: nat): (r: Step)
    requires Fits(inp) && k < |inp.toks|
    ensures r.Matched? ==> k < r.next < |inp.toks|
  {
    if Kind(inp, k) != RBracket then Failed(MissingBracket(k))
    else if Kind(inp, k + 1) != Number then Failed(MissingLoopCount(k + 1))
    else Matched(Unroll(body, brk, NumberAt(inp, k + 1)), k + 2)
  }

  /** `parse_action`: a note, a command, a loop or an expansion, tried in that order. */
  function ParseActionF(inp: Input, table: seq<Macro>, i: nat): (r: Step)
    requires Fits(inp) && i < |inp.toks|
    ensures r.Matched? ==> i < r.next < |inp.toks|
    decreases |inp.toks| - i, 2
  {
    if Kind(inp, i) == Eof then NoMatch
    else
      var n := ParseNoteF(inp, i);
      if !n.NoMatch? then n
      else
        var c := ParseCommandF(inp, i);
        if !c.NoMatch? then c
        else
          var l := ParseLoopF(inp, table, i);
          if !l.NoMatch? then l
          else ParseExpansionF(inp, table, i)
  }

  /** The body loops of `parse_loop` and `parse_definition`: actions until a stop token. */
  function ScanF(inp: Input, table: seq<Macro>, scope: Scope, i: nat): (r: Scan)
    requires Fits(inp) && i < |inp.toks|
    ensures r.Scanned? ==> i <= r.next < |inp.toks| && Stops(scope, Kind(inp, r.next))
    decreases |inp.toks| - i, 4
  {
    if Stops(scope, Kind(inp, i)) then Scanned([], i) else ScanItem(inp, table, scope, i)
  }

  /** One action of a body loop at `i`, then the rest of the loop. */
  function ScanItem(inp: Input, table: seq<Macro>, scope: Scope, i: nat): (r: Scan)
    requires Fits(inp) && i < |inp.toks|
    ensures r.Scanned? ==> i <= r.next < |inp.toks| && Stops(scope, Kind(inp, r.next))
    decreases |inp.toks| - i, 3
  {
    match ParseActionF(inp, table, i)
    case NoMatch => ScanFailed(UnexpectedToken(i))
    case Failed(e) => ScanFailed(e)
    case Matched(evs, j) =>
      match ScanF(inp, table, scope, j)
      case ScanFailed(e) => ScanFailed(e)
      case Scanned(rest, k) => Scanned(evs + rest, k)
  }

  /** What `parse_definition` does at a DEFINITION token. */
  datatype Def = Defined(table: seq<Macro>, next: nat) | DefFailed(err: ParseError)

  /** `parse_definition` after its kind check: an empty body registers nothing. */
  function DefinitionAt(inp: Input, table: seq<Macro>, i: nat): (r: Def)
    requires Fits(inp) && i < |inp.toks| && Kind(inp, i) == Definition
    ensures r.Defined? ==> i < r.next < |inp.toks|
  {
    if inp.toks[i].size - 1 == 0 then DefFailed(EmptyIdentifier(i))
    else if Kind(inp, i + 1) != LBrace then DefFailed(MissingLBrace(i + 1))
    else
      match ScanF(inp, table, MacroBody, i + 2)
      case ScanFailed(e) => DefFailed(e)
      case Scanned(body, j) => DefinitionClose(inp, table, Ident(inp, i), body, j)
  }

  /** The end of a definition at `j`: `}`, then the body is registered under
      `name` unless it is empty. */
  function DefinitionClose(inp: Input, table: seq<Macro>, name: seq<Byte>, body: seq<Event>, j: nat): (r: Def)
    requires j < |inp.toks|
    ensures r.Defined? ==> r.next == j + 1
  {
    if Kind(inp, j) != RBrace then DefFailed(MissingRBrace(j))
    else if |body| == 0 then Defined(table, j + 1)
    else Defined(table + [Macro(name, body)], j + 1)
  }

  /** What `parse_track` does: append `evs`, leave the table `table`, and stop at `next`. */
  datatype Track = Tracked(evs: seq<Event>, table: seq<Macro>, next: nat) | TrackFailed(err: ParseError)

  /** `parse_track`: definitions and actions up to, but not including, `;` or the end. */
  function ParseTrackF(inp: Input, table: seq<Macro>, i: nat): (r: Track)
    requires Fits(inp) && i < |inp.toks|
    ensures r.Tracked? ==> i <= r.next < |inp.toks| && (Kind(inp, r.next) == Eof || Kind(inp, r.next) == Semicolon)
    ensures r.Tracked? && Kind(inp, i) != Eof && Kind(inp, i) != Semicolon ==> i < r.next
    decreases |inp.toks| - i, 1
  {
    var k := Kind(inp, i);
    if k == Eof || k == Semicolon then Tracked([], table, i) else TrackItem(inp, table, i)
  }

  /** One definition or action of a track at `i`, then the rest of the track. */
  function TrackItem(inp: Input, table: seq<Macro>, i: nat): (r: Track)
    requires Fits(inp) && i < |inp.toks| && Kind(inp, i) != Eof && Kind(inp, i) != Semicolon
    ensures r.Tracked? ==> i < r.next < |inp.toks| && (Kind(inp, r.next) == Eof || Kind(inp, r.next) == Semicolon)
    decreases |inp.toks| - i, 0
  {
    if Kind(inp, i) == Definition then
      match DefinitionAt(inp, table, i)
      case DefFailed(e) => TrackFailed(e)
      case Defined(table', j) => ParseTrackF(inp, table', j)
    else
      match ParseActionF(inp, table, i)
      case NoMatch => TrackFailed(UnexpectedToken(i))
      case Failed(e) => TrackFailed(e)
      case Matched(evs, j) =>
        match ParseTrackF(inp, table, j)
        case TrackFailed(e) => TrackFailed(e)
        case Tracked(rest, table', m) => Tracked(evs + rest, table', m)
  }

  function PrependEvents(evs: seq<Event>, r: Result<seq<Event>, ParseError>): Result<seq<Event>, ParseError>
  {
    match r
    case Ok(rest) => Ok(evs + rest)
    case Err(e) => Err(e)
  }

  /** The loop of `mml_parse` from index `i`: each `;` appends one end-of-track event. */
  function TopLevelF(inp: Input, table: seq<Macro>, i: nat): Result<seq<Event>, ParseError>
    requires Fits(inp) && i < |inp.toks|
    decreases |inp.toks| - i, 1
  {
    var k := Kind(inp, i);
    if k == Eof then Ok([])
    else if k == Semicolon then PrependEvents([EndOfTrack], TopLevelF(inp, table, i + 1))
    else TrackThenRest(inp, table, i)
  }

  /** A track at `i` followed by the rest of the loop of `mml_parse`. */
  function TrackThenRest(inp: Input, table: seq<Macro>, i: nat): Result<seq<Event>, ParseError>
    requires Fits(inp) && i < |inp.toks| && Kind(inp, i) != Eof && Kind(inp, i) != Semicolon
    decreases |inp.toks| - i, 0
  {
    match ParseTrackF(inp, table, i)
    case TrackFailed(e) => Err(e)
    case Tracked(evs, table', j) => PrependEvents(evs, TopLevelF(inp, table', j))
  }

  /** `mml_parse`: the events appended to the caller's output sequence. */
  function MmlParseF(inp: Input): Result<seq<Event>, ParseError>
    requires Fits(inp)
  {
    if Kind(inp, 0) == Eof then Err(EmptyInput) else TopLevelF(inp, [], 0)
  }
}
