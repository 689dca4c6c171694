/** The recursive-descent parser as the source runs it: a context holding
    the token array, a token index that `Advance` and `Expect` move, the
    output sequence the routines append to (swapped for a fresh one while a
    loop or definition body is parsed, then restored), and the macro table
    that definitions append to.  Every routine is proved against its
    specification function in `ParserSpec`. */
module MmlParser {
  import opened Bytes
  import opened Mml
  import opened ParserSpec

  /** The result of a parser routine: `true` (`Done`), `false` (`NotHere`), or an abort. */
  datatype Outcome = Done | NotHere | Abort(error: ParseError)

  function PrependScan(evs: seq<Event>, s: Scan): Scan
  {
    match s
    case Scanned(rest, k) => Scanned(evs + rest, k)
    case ScanFailed(e) => ScanFailed(e)
  }

  function PrependTrack(evs: seq<Event>, t: Track): Track
  {
    match t
    case Tracked(rest, table, k) => Tracked(evs + rest, table, k)
    case TrackFailed(e) => TrackFailed(e)
  }

  lemma PrependScanAssoc(a: seq<Event>, b: seq<Event>, s: Scan)
    ensures PrependScan(a, PrependScan(b, s)) == PrependScan(a + b, s)
  {
    if s.Scanned? {
      assert a + (b + s.evs) == (a + b) + s.evs;
    }
  }

  lemma PrependTrackAssoc(a: seq<Event>, b: seq<Event>, t: Track)
    ensures PrependTrack(a, PrependTrack(b, t)) == PrependTrack(a + b, t)
  {
    if t.Tracked? {
      assert a + (b + t.evs) == (a + b) + t.evs;
    }
  }

  lemma PrependEventsAssoc(a: seq<Event>, b: seq<Event>, r: Result<seq<Event>, ParseError>)
    ensures PrependEvents(a, PrependEvents(b, r)) == PrependEvents(a + b, r)
  {
    if r.Ok? {
      assert a + (b + r.value) == (a + b) + r.value;
    }
  }

  lemma PrependScanEmpty(s: Scan)
    ensures PrependScan([], s) == s
  {
    if s.Scanned? {
      assert [] + s.evs == s.evs;
    }
  }

  lemma PrependTrackEmpty(t: Track)
    ensures PrependTrack([], t) == t
  {
    if t.Tracked? {
      assert [] + t.evs == t.evs;
    }
  }

  lemma PrependEventsEmpty(r: Result<seq<Event>, ParseError>)
    ensures PrependEvents([], r) == r
  {
    if r.Ok? {
      assert [] + r.value == r.value;
    }
  }

  /** Aliases of the recursive specification functions.  The contracts and
      loop invariants of the parser routines are stated through them: each is
      `ParserSpec`'s function of the same meaning, and a use of the alias lets
      the verifier unfold the recursive definition only one level. */
  ghost function ScanSpec(inp: FitInput, table: seq<Macro>, scope: Scope, i: nat): Scan
    requires i < |inp.toks|
  {
    ScanF(inp, table, scope, i)
  }

  ghost function TrackSpec(inp: FitInput, table: seq<Macro>, i: nat): Track
    requires i < |inp.toks|
  {
    ParseTrackF(inp, table, i)
  }

  ghost function TopSpec(inp: FitInput, table: seq<Macro>, i: nat): Result<seq<Event>, ParseError>
    requires i < |inp.toks|
  {
    TopLevelF(inp, table, i)
  }

  ghost function LoopSpec(inp: FitInput, table: seq<Macro>, i: nat): Step
    requires i < |inp.toks|
  {
    ParseLoopF(inp, table, i)
  }

  ghost function BreakSpec(inp: FitInput, table: seq<Macro>, j: nat): Scan
    requires j < |inp.toks|
  {
    BreakScan(inp, table, j)
  }

  ghost function ActionSpec(inp: FitInput, table: seq<Macro>, i: nat): Step
    requires i < |inp.toks|
  {
    ParseActionF(inp, table, i)
  }

  /** Repeating once more appends one more copy. */
  lemma RepeatStep(s: seq<Event>, k: nat)
    ensures Repeat(s, k + 1) == Repeat(s, k) + s
  {
  }

  /** The unrolling loop of `parse_loop`: `loopi - 1` (unsigned) rounds of body
      and break, then the body once more. */
  method AppendUnrolled(parent: DynArray<Event>, loopSeq: DynArray<Event>, breakSeq: DynArray<Event>, loopi: Uint32)
    requires parent.Valid() && parent != loopSeq && parent != breakSeq
    modifies parent
    ensures parent.Valid()
    ensures parent.items == old(parent.items) + Unroll(loopSeq.items, breakSeq.items, loopi)
  {
    ghost var body, brk := loopSeq.items, breakSeq.items;
    var count := LoopIterations(loopi);
    var i: Uint32 := 0;
    while i < count
      invariant parent.Valid() && i <= count
      invariant parent.items == old(parent.items) + Repeat(body + brk, i)
      decreases count - i
    {
      AppendRound(parent, loopSeq, breakSeq);
      RepeatStep(body + brk, i);
      assert old(parent.items) + Repeat(body + brk, i) + (body + brk) == old(parent.items) + Repeat(body + brk, i + 1);
      i := i + 1;
    }
    parent.AppendMany(loopSeq.items);
  }

  /** One round of the unrolling loop: the body, then the break part when it is not empty. */
  method AppendRound(parent: DynArray<Event>, loopSeq: DynArray<Event>, breakSeq: DynArray<Event>)
    requires parent.Valid() && parent != loopSeq && parent != breakSeq
    modifies parent
    ensures parent.Valid()
    ensures parent.items == old(parent.items) + (loopSeq.items + breakSeq.items)
  {
    parent.AppendMany(loopSeq.items);
    if |breakSeq.items| > 0 {
      parent.AppendMany(breakSeq.items);
    }
    assert old(parent.items) + loopSeq.items + breakSeq.items == old(parent.items) + (loopSeq.items + breakSeq.items);
  }

  class Parser {
    const inp: FitInput
    var idx: nat
    var out: DynArray<Event>
    var macroTable: DynArray<Macro>

    ghost predicate Valid()
      reads this, out, macroTable
    {
      idx < |inp.toks| && out.Valid() && macroTable.Valid()
    }

    /** A routine did what `s` says from index `i0` with output `items0`. */
    ghost predicate Reflects(s: Step, r: Outcome, i0: nat, items0: seq<Event>)
      reads this, out
    {
      match s
      case Matched(evs, next) => r == Done && idx == next && out.items == items0 + evs
      case NoMatch => r == NotHere && idx == i0 && out.items == items0
      case Failed(e) => r == Abort(e)
    }

    /** The context `mml_parse` sets up: index 0, the caller's output, an empty table. */
    constructor (inp: FitInput, out: DynArray<Event>)
      requires out.Valid()
      ensures Valid() && this.inp == inp && idx == 0 && this.out == out
      ensures fresh(macroTable) && macroTable.items == []
    {
      this.inp := inp;
      idx := 0;
      this.out := out;
      macroTable := new DynArray<Macro>();
    }

    /** `peek_kind`. */
    function PeekKind(): TokenKind
      reads this
      requires idx < |inp.toks|
    {
      inp.toks[idx].kind
    }

    /** `advance`: the current token; the index moves past it. */
    method Advance() returns (t: Token)
      requires Valid() && PeekKind() != Eof
      modifies this`idx
      ensures Valid() && t == inp.toks[old(idx)] && idx == old(idx) + 1
    {
      t := inp.toks[idx];
      idx := idx + 1;
    }

    /** `expect`: consume the current token exactly when it has kind `kind`. */
    method Expect(kind: TokenKind) returns (b: bool)
      requires Valid() && kind != Eof
      modifies this`idx
      ensures Valid() && b == (inp.toks[old(idx)].kind == kind)
      ensures idx == if b then old(idx) + 1 else old(idx)
    {
      if PeekKind() != kind {
        return false;
      }
      var _ := Advance();
      return true;
    }

    /** `macro_search`: scan the table from the front for the name. */
    method MacroSearch(name: seq<Byte>) returns (m: Option<Macro>)
      requires Valid()
      ensures m == MacroLookup(macroTable.items, name)
    {
      var i := 0;
      while i < |macroTable.items|
        invariant i <= |macroTable.items|
        invariant MacroLookup(macroTable.items, name) == MacroLookup(macroTable.items[i..], name)
      {
        if macroTable.items[i].name == name {
          return Some(macroTable.items[i]);
        }
        assert macroTable.items[i..][1..] == macroTable.items[i + 1..];
        i := i + 1;
      }
      return None;
    }

    /** `strtoul` on the digits of the number token just consumed. */
    method ReadNumber(t: Token) returns (v: Uint32)
      requires Valid() && idx >= 1 && t == inp.toks[idx - 1] && t.kind == Number
      ensures v == NumberAt(inp, idx - 1)
    {
      assert FitsAt(inp, idx - 1);
      v := StrToUnsigned(inp.src[t.offset..t.offset + t.size]);
    }

    /** The optional `+` or `-` after a note letter. */
    method ReadAccidental() returns (acc: int)
      requires Valid()
      modifies this`idx
      ensures Valid() && acc == AccidentalAt(inp, old(idx))
      ensures idx == if acc == 0 then old(idx) else old(idx) + 1
    {
      acc := 0;
      if PeekKind() == Plus {
        acc := acc + 1;
        var _ := Advance();
      } else if PeekKind() == Minus {
        acc := acc - 1;
        var _ := Advance();
      }
    }

    /** The optional number after a note letter or a command: its value, or 0. */
    method ReadOptNumber() returns (v: Uint32)
      requires Valid()
      modifies this`idx
      ensures Valid() && v == OptNumberAt(inp, old(idx)) && idx == AfterNumber(inp, old(idx))
    {
      v := 0;
      if PeekKind() == Number {
        var t := Advance();
        v := ReadNumber(t);
      }
    }

    /** The dot loop of `parse_note`: consume the DOT tokens at the cursor, counting them in an `unsigned`. */
    method CountDots() returns (dots: Uint32)
      requires Valid()
      modifies this`idx
      ensures Valid()
      ensures dots == DotRun(inp, old(idx)) % Two32 && idx == old(idx) + DotRun(inp, old(idx))
    {
      dots := 0;
      ghost var count: nat := 0;
      while PeekKind() == Dot
        invariant Valid() && idx == old(idx) + count
        invariant DotRun(inp, old(idx)) == count + DotRun(inp, idx)
        invariant dots == count % Two32
        decreases |inp.toks| - idx
      {
        WrapIncrement(count);
        dots := (dots + 1) % Two32;
        count := count + 1;
        var _ := Advance();
      }
    }

    /** `parse_note`. */
    method ParseNote() returns (r: Outcome)
      requires Valid()
      modifies this`idx, out
      ensures Valid()
      ensures Reflects(ParseNoteF(inp, old(idx)), r, old(idx), old(out.items))
    {
      if PeekKind() != NoteLetter {
        return NotHere;
      }
      ghost var i0 := idx;
      var note := Advance();
      assert FitsAt(inp, i0);
      var pitch := inp.src[note.offset];
      assert pitch == FirstByte(inp, i0);
      var acc := ReadAccidental();
      ghost var k := idx;
      assert k == AfterAccidental(inp, i0);
      var length := ReadOptNumber();
      ghost var m := idx;
      var dots := CountDots();
      var ev := Note(pitch, length, dots, acc, false, false);
      assert ParseNoteF(inp, i0) == Matched([ev], idx);
      out.Append(ev);
      return Done;
    }

    /** `parse_command`. */
    method ParseCommand() returns (r: Outcome)
      requires Valid()
      modifies this`idx, out
      ensures Valid()
      ensures Reflects(ParseCommandF(inp, old(idx)), r, old(idx), old(out.items))
    {
      if PeekKind() != Command {
        return NotHere;
      }
      ghost var i0 := idx;
      var cmdtok := Advance();
      assert FitsAt(inp, i0);
      var cmd := inp.src[cmdtok.offset];
      var arg := ReadOptNumber();
      out.Append(Control(cmd, arg));
      return Done;
    }

    /** `parse_expansion`: append a copy of the macro's body. */
    method ParseExpansion() returns (r: Outcome)
      requires Valid()
      modifies this`idx, out
      ensures Valid()
      ensures Reflects(ParseExpansionF(inp, macroTable.items, old(idx)), r, old(idx), old(out.items))
    {
      if PeekKind() != Expansion {
        return NotHere;
      }
      var i0 := idx;
      var def := Advance();
      assert FitsAt(inp, i0);
      if def.size - 1 == 0 {
        return Abort(EmptyIdentifier(i0));
      }
      var ident := inp.src[def.offset + 1..def.offset + def.size];
      var m := MacroSearch(ident);
      if m.None? {
        return Abort(UndefinedMacro(ident));
      }
      out.AppendMany(m.value.body);
      return Done;
    }

    /** The body loops of `parse_loop` and `parse_definition`: parse actions
        into the current output until a token that stops `scope`. */
    method ScanActions(scope: Scope) returns (r: Outcome)
      requires Valid()
      modifies this`idx, this`out, out
      ensures Valid() && out == old(out) && r != NotHere
      ensures match ScanSpec(inp, macroTable.items, scope, old(idx))
              case Scanned(evs, next) => r == Done && idx == next && out.items == old(out.items) + evs
              case ScanFailed(e) => r == Abort(e)
      decreases |inp.toks| - idx, 4
    {
      ghost var i0 := idx;
      ghost var acc: seq<Event> := [];
      PrependScanEmpty(ScanSpec(inp, macroTable.items, scope, i0));
      while true
        invariant Valid() && out == old(out) && i0 <= idx
        invariant out.items == old(out.items) + acc
        invariant ScanSpec(inp, macroTable.items, scope, i0) == PrependScan(acc, ScanSpec(inp, macroTable.items, scope, idx))
        decreases |inp.toks| - idx
      {
        if Stops(scope, PeekKind()) {
          return Done;
        }
        ghost var evs: seq<Event>;
        r, evs := ScanStep(scope);
        if r.Abort? {
          return;
        }
        PrependScanAssoc(acc, evs, ScanSpec(inp, macroTable.items, scope, idx));
        acc := acc + evs;
      }
    }

    /** One round of a body loop: one action, or an abort. */
    method ScanStep(scope: Scope) returns (r: Outcome, ghost evs: seq<Event>)
      requires Valid() && !Stops(scope, PeekKind())
      modifies this`idx, this`out, out
      ensures Valid() && out == old(out) && r != NotHere
      ensures r.Done? ==> idx > old(idx) && out.items == old(out.items) + evs
      ensures r.Done? ==> ScanSpec(inp, macroTable.items, scope, old(idx)) == PrependScan(evs, ScanSpec(inp, macroTable.items, scope, idx))
      ensures r.Abort? ==> ScanSpec(inp, macroTable.items, scope, old(idx)) == ScanFailed(r.error)
      decreases |inp.toks| - idx, 3
    {
      var before := idx;
      assert ScanSpec(inp, macroTable.items, scope, before) == ScanItem(inp, macroTable.items, scope, before);
      r := ParseAction();
      if r.NotHere? {
        var _ := Advance();
        return Abort(UnexpectedToken(before)), [];
      }
      evs := if r.Done? then ActionSpec(inp, macroTable.items, before).evs else [];
    }

    /** Make `target` the current output, run the body loop for `scope` into
        it, and make the previous output current again. */
    method ScanInto(target: DynArray<Event>, scope: Scope) returns (r: Outcome)
      requires Valid() && target.Valid() && target != out
      modifies this`idx, this`out, target
      ensures Valid() && out == old(out) && out.items == old(out.items) && target.Valid() && r != NotHere
      ensures match ScanSpec(inp, macroTable.items, scope, old(idx))
              case Scanned(evs, next) => r == Done && idx == next && target.items == old(target.items) + evs
              case ScanFailed(e) => r == Abort(e)
      decreases |inp.toks| - idx, 5
    {
      var parent := out;
      out := target;
      r := ScanActions(scope);
      out := parent;
    }

    /** `parse_loop`: parse the body and the optional break part into fresh
        sequences, then append body, break, body, ..., body to the parent. */
    method ParseLoop() returns (r: Outcome)
      requires Valid()
      modifies this`idx, this`out, out
      ensures Valid() && out == old(out)
      ensures Reflects(LoopSpec(inp, macroTable.items, old(idx)), r, old(idx), old(out.items))
      decreases |inp.toks| - idx, 1
    {
      if PeekKind() != LBracket {
        return NotHere;
      }
      ghost var i0, table, items0 := idx, macroTable.items, out.items;
      var _ := Advance();
      var loopSeq := new DynArray<Event>();
      var s := ScanInto(loopSeq, LoopBody);
      if s.Abort? {
        assert LoopSpec(inp, table, i0) == Failed(s.error);
        return s;
      }
      assert [] + loopSeq.items[0..] == loopSeq.items;
      r := LoopTail(loopSeq, i0);
    }

    /** The rest of `parse_loop` once the body has been parsed into `loopSeq`:
        the optional break part, then `]`, the count and the unrolling. */
    method LoopTail(loopSeq: DynArray<Event>, ghost i0: nat) returns (r: Outcome)
      requires Valid() && loopSeq.Valid() && loopSeq != out
      requires i0 < idx && Kind(inp, i0) == LBracket
      requires ScanSpec(inp, macroTable.items, LoopBody, i0 + 1) == Scanned(loopSeq.items, idx)
      modifies this`idx, this`out, out
      ensures Valid() && out == old(out)
      ensures Reflects(LoopSpec(inp, macroTable.items, i0), r, i0, old(out.items))
      decreases |inp.toks| - idx, 7
    {
      ghost var table, items0, j := macroTable.items, out.items, idx;
      var breakSeq := new DynArray<Event>();
      var s := ScanBreak(breakSeq);
      if s.Abort? {
        assert LoopSpec(inp, table, i0) == Failed(s.error);
        return s;
      }
      ParseLoopScanned(inp, table, i0, loopSeq.items, j, breakSeq.items, idx);
      r := CloseLoop(loopSeq, breakSeq);
    }

    /** The optional `:` part of `parse_loop`, parsed into `breakSeq`. */
    method ScanBreak(breakSeq: DynArray<Event>) returns (r: Outcome)
      requires Valid() && breakSeq.Valid() && breakSeq != out && breakSeq.items == []
      modifies this`idx, this`out, breakSeq
      ensures Valid() && out == old(out) && out.items == old(out.items) && breakSeq.Valid() && r != NotHere
      ensures match BreakSpec(inp, macroTable.items, old(idx))
              case Scanned(evs, next) => r == Done && idx == next && breakSeq.items == evs
              case ScanFailed(e) => r == Abort(e)
      decreases |inp.toks| - idx, 6
    {
      if PeekKind() != Colon {
        return Done;
      }
      var _ := Advance();
      r := ScanInto(breakSeq, BreakBody);
      assert r.Done? ==> [] + breakSeq.items[0..] == breakSeq.items;
    }

    /** The end of `parse_loop`: `]`, the count, and the unrolling loop. */
    method CloseLoop(loopSeq: DynArray<Event>, breakSeq: DynArray<Event>) returns (r: Outcome)
      requires Valid() && loopSeq.Valid() && breakSeq.Valid()
      requires out != loopSeq && out != breakSeq
      modifies this`idx, out
      ensures Valid()
      ensures Reflects(LoopClose(inp, loopSeq.items, breakSeq.items, old(idx)), r, old(idx), old(out.items))
    {
      var closed := Expect(RBracket);
      if !closed {
        return Abort(MissingBracket(idx));
      }
      if PeekKind() != Number {
        return Abort(MissingLoopCount(idx));
      }
      var itok := Advance();
      var loopi := ReadNumber(itok);
      AppendUnrolled(out, loopSeq, breakSeq, loopi);
      return Done;
    }

    /** `parse_action`. */
    method ParseAction() returns (r: Outcome)
      requires Valid()
      modifies this`idx, this`out, out
      ensures Valid() && out == old(out)
      ensures Reflects(ActionSpec(inp, macroTable.items, old(idx)), r, old(idx), old(out.items))
      decreases |inp.toks| - idx, 2
    {
      if PeekKind() == Eof {
        return NotHere;
      }
      r := ParseNote();
      if r.Done? {
        return;
      }
      r := ParseCommand();
      if r.Done? {
        return;
      }
      r := ParseLoop();
      if !r.NotHere? {
        return;
      }
      r := ParseExpansion();
    }

    /** `parse_definition`: parse the body into a fresh sequence and register it
        under the name when it is not empty. */
    method ParseDefinition() returns (r: Outcome)
      requires Valid()
      modifies this`idx, this`out, macroTable
      ensures Valid() && out == old(out) && out.items == old(out.items)
      ensures old(PeekKind()) != Definition ==> r == NotHere && idx == old(idx) && macroTable.items == old(macroTable.items)
      ensures old(PeekKind()) == Definition ==>
                match DefinitionAt(inp, old(macroTable.items), old(idx))
                case Defined(table, next) => r == Done && idx == next && macroTable.items == table
                case DefFailed(e) => r == Abort(e)
    {
      if PeekKind() != Definition {
        return NotHere;
      }
      var i0 := idx;
      var def := Advance();
      assert FitsAt(inp, i0);
      if def.size - 1 == 0 {
        return Abort(EmptyIdentifier(i0));
      }
      var ident := inp.src[def.offset + 1..def.offset + def.size];
      var hasBrace := Expect(LBrace);
      if !hasBrace {
        return Abort(MissingLBrace(idx));
      }
      r := DefinitionBody(ident, i0);
    }

    /** `parse_definition` after `{`: parse the body into a fresh sequence, then close the definition. */
    method DefinitionBody(ident: seq<Byte>, ghost i0: nat) returns (r: Outcome)
      requires Valid() && idx == i0 + 2 && Kind(inp, i0) == Definition && Kind(inp, i0 + 1) == LBrace
      requires inp.toks[i0].size - 1 != 0 && ident == Ident(inp, i0)
      modifies this`idx, this`out, macroTable
      ensures Valid() && out == old(out) && out.items == old(out.items)
      ensures match DefinitionAt(inp, old(macroTable.items), i0)
              case Defined(table, next) => r == Done && idx == next && macroTable.items == table
              case DefFailed(e) => r == Abort(e)
    {
      var macroSeq := new DynArray<Event>();
      ghost var table0 := macroTable.items;
      var s := ScanInto(macroSeq, MacroBody);
      if s.Abort? {
        assert DefinitionAt(inp, table0, i0) == DefFailed(s.error);
        return s;
      }
      assert [] + macroSeq.items[0..] == macroSeq.items;
      assert DefinitionAt(inp, table0, i0) == DefinitionClose(inp, table0, ident, macroSeq.items, idx);
      r := CloseDefinition(ident, macroSeq.items);
    }

    /** The end of `parse_definition`: `}`, then the body is registered unless it is empty. */
    method CloseDefinition(name: seq<Byte>, body: seq<Event>) returns (r: Outcome)
      requires Valid()
      modifies this`idx, macroTable
      ensures Valid()
      ensures match DefinitionClose(inp, old(macroTable.items), name, body, old(idx))
              case Defined(table, next) => r == Done && idx == next && macroTable.items == table
              case DefFailed(e) => r == Abort(e)
    {
      var closed := Expect(RBrace);
      if !closed {
        return Abort(MissingRBrace(idx));
      }
      if |body| == 0 {
        return Done;
      }
      macroTable.Append(Macro(name, body));
      return Done;
    }

    /** `parse_track`: definitions and actions until `;` or the end of input. */
    method ParseTrack() returns (r: Outcome)
      requires Valid()
      modifies this`idx, this`out, out, macroTable
      ensures Valid() && out == old(out) && r != NotHere
      ensures match TrackSpec(inp, old(macroTable.items), old(idx))
              case Tracked(evs, table, next) =>
                r == Done && idx == next && out.items == old(out.items) + evs && macroTable.items == table
              case TrackFailed(e) => r == Abort(e)
    {
      ghost var i0 := idx;
      ghost var table0 := macroTable.items;
      ghost var acc: seq<Event> := [];
      PrependTrackEmpty(TrackSpec(inp, table0, i0));
      while true
        invariant Valid() && out == old(out) && i0 <= idx
        invariant out.items == old(out.items) + acc
        invariant TrackSpec(inp, table0, i0) == PrependTrack(acc, TrackSpec(inp, macroTable.items, idx))
        decreases |inp.toks| - idx
      {
        if PeekKind() == Eof || PeekKind() == Semicolon {
          return Done;
        }
        ghost var evs: seq<Event>;
        r, evs := TrackStep();
        if r.Abort? {
          return;
        }
        PrependTrackAssoc(acc, evs, TrackSpec(inp, macroTable.items, idx));
        acc := acc + evs;
      }
    }

    /** One round of the loop of `parse_track`: a definition (no events) or an action. */
    method TrackStep() returns (r: Outcome, ghost evs: seq<Event>)
      requires Valid() && PeekKind() != Eof && PeekKind() != Semicolon
      modifies this`idx, this`out, out, macroTable
      ensures Valid() && out == old(out) && r != NotHere
      ensures r.Done? ==> idx > old(idx) && out.items == old(out.items) + evs
      ensures r.Done? ==> TrackSpec(inp, old(macroTable.items), old(idx)) == PrependTrack(evs, TrackSpec(inp, macroTable.items, idx))
      ensures r.Abort? ==> TrackSpec(inp, old(macroTable.items), old(idx)) == TrackFailed(r.error)
    {
      var before := idx;
      assert TrackSpec(inp, macroTable.items, before) == TrackItem(inp, macroTable.items, before);
      evs := [];
      if PeekKind() == Definition {
        r := ParseDefinition();
        if r.Done? {
          PrependTrackEmpty(TrackSpec(inp, macroTable.items, idx));
        }
        return;
      }
      r := ParseAction();
      if r.NotHere? {
        var _ := Advance();
        return Abort(UnexpectedToken(before)), [];
      }
      if r.Done? {
        evs := ActionSpec(inp, macroTable.items, before).evs;
      }
    }

    /** The loop of `mml_parse`: tracks and `;` until the end of input. */
    method ParseAll() returns (r: Outcome)
      requires Valid()
      modifies this`idx, this`out, out, macroTable
      ensures out == old(out) && out.Valid() && r != NotHere
      ensures match TopSpec(inp, old(macroTable.items), old(idx))
              case Ok(evs) => r == Done && out.items == old(out.items) + evs
              case Err(e) => r == Abort(e)
    {
      ghost var acc: seq<Event> := [];
      ghost var i0, table0 := idx, macroTable.items;
      PrependEventsEmpty(TopSpec(inp, table0, i0));
      while true
        invariant Valid() && out == old(out)
        invariant out.items == old(out.items) + acc
        invariant TopSpec(inp, table0, i0) == PrependEvents(acc, TopSpec(inp, macroTable.items, idx))
        decreases |inp.toks| - idx
      {
        if PeekKind() == Eof {
          return Done;
        }
        ghost var evs: seq<Event>;
        r, evs := TopLevelStep();
        if r.Abort? {
          return;
        }
        PrependEventsAssoc(acc, evs, TopSpec(inp, macroTable.items, idx));
        acc := acc + evs;
      }
    }

    /** One round of the loop of `mml_parse`: a `;` (one end-of-track event)
        or one track. */
    method TopLevelStep() returns (r: Outcome, ghost evs: seq<Event>)
      requires Valid() && PeekKind() != Eof
      modifies this`idx, this`out, out, macroTable
      ensures Valid() && out == old(out) && r != NotHere
      ensures r.Done? ==> idx > old(idx) && out.items == old(out.items) + evs
      ensures r.Done? ==> TopSpec(inp, old(macroTable.items), old(idx)) == PrependEvents(evs, TopSpec(inp, macroTable.items, idx))
      ensures r.Abort? ==> TopSpec(inp, old(macroTable.items), old(idx)) == Err(r.error)
    {
      if PeekKind() == Semicolon {
        out.Append(EndOfTrack);
        var _ := Advance();
        return Done, [EndOfTrack];
      }
      ghost var i0, table0 := idx, macroTable.items;
      assert TopSpec(inp, table0, i0) == TrackThenRest(inp, table0, i0);
      r := ParseTrack();
      evs := if r.Done? then ParseTrackF(inp, table0, i0).evs else [];
    }
  }

  /** `mml_parse`: append the events of the whole token array to `outSeq`;
      `Some(EmptyInput)` is the -1 return, any other error an abort. */
  method MmlParse(inp: FitInput, outSeq: DynArray<Event>) returns (err: Option<ParseError>)
    requires outSeq.Valid()
    modifies outSeq
    ensures outSeq.Valid()
    ensures match MmlParseF(inp)
            case Ok(evs) => err.None? && outSeq.items == old(outSeq.items) + evs
            case Err(e) => err == Some(e) && (inp.toks[0].kind == Eof ==> outSeq.items == old(outSeq.items))
  {
    if inp.toks[0].kind == Eof {
      return Some(EmptyInput);
    }
    var ctx := new Parser(inp, outSeq);
    var r := ctx.ParseAll();
    if r.Abort? {
      return Some(r.error);
    }
    return None;
  }
}
