/** Properties of the parser's meaning: the shape of loop unrolling, what a
    macro expansion copies, what a definition registers, and where
    end-of-track events come from. */
module ParserProps {
  import opened Bytes
  import opened Mml
  import opened ParserSpec

  // ---------------------------------------------------------------------------
  // Loop unrolling
  // ---------------------------------------------------------------------------

  /** Moving the body from the end of the repetition to its front. */
  lemma {:induction false} RepeatShift(body: seq<Event>, brk: seq<Event>, k: nat)
    ensures Repeat(body + brk, k) + body == body + Repeat(brk + body, k)
  {
    if k > 0 {
      RepeatShift(body, brk, k - 1);
      calc {
        Repeat(body + brk, k) + body;
        Repeat(body + brk, k - 1) + (body + brk) + body;
        (Repeat(body + brk, k - 1) + body) + (brk + body);
        (body + Repeat(brk + body, k - 1)) + (brk + body);
        body + Repeat(brk + body, k);
      }
    }
  }

  lemma {:induction false} RepeatLength(s: seq<Event>, k: nat)
    ensures |Repeat(s, k)| == k * |s|
  {
    if k > 0 {
      RepeatLength(s, k - 1);
    }
  }

  /** A loop with count `n` >= 1 appends body, then (break, body) n - 1 times:
      the break part lies between iterations but not after the last.  A count
      of 0 wraps the unsigned `n - 1` around to 2^32 - 1 iterations. */
  lemma UnrollShape(body: seq<Event>, brk: seq<Event>, n: Uint32)
    ensures n >= 1 ==> Unroll(body, brk, n) == body + Repeat(brk + body, n - 1)
    ensures n == 0 ==> Unroll(body, brk, n) == body + Repeat(brk + body, Two32 - 1)
    ensures |Unroll(body, brk, n)| == |body| + LoopIterations(n) * (|brk| + |body|)
  {
    RepeatShift(body, brk, LoopIterations(n));
    RepeatLength(brk + body, LoopIterations(n));
  }

  // ---------------------------------------------------------------------------
  // Notes and commands
  // ---------------------------------------------------------------------------

  /** `parse_note` matches exactly at a note letter and appends one note: its
      pitch is the letter, its accidental comes from an immediately following
      `+` or `-`, its length is the following number (0 when there is none),
      and its dot count is the number of DOT tokens it consumes. */
  lemma NoteFields(inp: Input, i: nat)
    requires Fits(inp) && i < |inp.toks|
    ensures ParseNoteF(inp, i).Matched? <==> Kind(inp, i) == NoteLetter
    ensures ParseNoteF(inp, i).Matched? ==>
              var r := ParseNoteF(inp, i);
              var e := r.evs[0];
              var k := AfterAccidental(inp, i);
              && |r.evs| == 1 && e.Note? && e.pitch == FirstByte(inp, i)
              && (e.acc == 1 <==> Kind(inp, i + 1) == Plus)
              && (e.acc == -1 <==> Kind(inp, i + 1) == Minus)
              && -1 <= e.acc <= 1
              && (Kind(inp, k) == Number ==> e.length == NumberAt(inp, k))
              && (Kind(inp, k) != Number ==> e.length == 0)
              && (forall m | AfterNumber(inp, k) <= m < r.next :: Kind(inp, m) == Dot)
              && Kind(inp, r.next) != Dot
              && e.dots == (r.next - AfterNumber(inp, k)) % Two32
              && !e.tie && !e.chordLink
  {
  }

  /** `parse_command` matches exactly at a command letter and appends one
      control event: the letter and the following number, 0 when there is none. */
  lemma CommandFields(inp: Input, i: nat)
    requires Fits(inp) && i < |inp.toks|
    ensures ParseCommandF(inp, i).Matched? <==> Kind(inp, i) == Command
    ensures ParseCommandF(inp, i).Matched? ==>
              var r := ParseCommandF(inp, i);
              && r.evs == [Control(FirstByte(inp, i), r.evs[0].value)]
              && (Kind(inp, i + 1) == Number ==> r.evs[0].value == NumberAt(inp, i + 1) && r.next == i + 2)
              && (Kind(inp, i + 1) != Number ==> r.evs[0].value == 0 && r.next == i + 1)
  {
  }

  // ---------------------------------------------------------------------------
  // Macros
  // ---------------------------------------------------------------------------

  /** `@name` appends the body of the earliest entry registered under the name,
      and fails exactly when there is none (or the name is empty). */
  lemma ExpansionCopiesFirst(inp: Input, table: seq<Macro>, i: nat)
    requires Fits(inp) && i < |inp.toks| && Kind(inp, i) == Expansion && inp.toks[i].size > 1
    ensures ParseExpansionF(inp, table, i).Failed? <==> forall k | 0 <= k < |table| :: table[k].name != Ident(inp, i)
    ensures ParseExpansionF(inp, table, i).Matched? ==>
              exists k | 0 <= k < |table| ::
                && table[k].name == Ident(inp, i)
                && ParseExpansionF(inp, table, i).evs == table[k].body
                && forall j | 0 <= j < k :: table[j].name != Ident(inp, i)
  {
    MacroLookupFirst(table, Ident(inp, i));
  }

  /** A definition succeeds exactly when the name after `!` is not empty
      (`size - 1 != 0` on the token's size, as a `size_t`),
      `{` follows, the body scan succeeds and stops at `}`.  It then resumes
      after the `}` and registers the scanned body under the name, unless
      that body is empty, when the table is left alone.  Names defined
      before keep what they find. */
  lemma DefinitionRegisters(inp: Input, table: seq<Macro>, i: nat, name: seq<Byte>)
    requires Fits(inp) && i < |inp.toks| && Kind(inp, i) == Definition
    ensures var d := DefinitionAt(inp, table, i);
            d.Defined? <==>
              && inp.toks[i].size != 1 && Kind(inp, i + 1) == LBrace
              && ScanF(inp, table, MacroBody, i + 2).Scanned?
              && Kind(inp, ScanF(inp, table, MacroBody, i + 2).next) == RBrace
    ensures var d := DefinitionAt(inp, table, i);
            d.Defined? ==>
              var s := ScanF(inp, table, MacroBody, i + 2);
              && d.next == s.next + 1
              && d.table == (if s.evs == [] then table else table + [Macro(Ident(inp, i), s.evs)])
              && (MacroLookup(table, name).Some? ==> MacroLookup(d.table, name) == MacroLookup(table, name))
  {
    var d := DefinitionAt(inp, table, i);
    if inp.toks[i].size != 1 && Kind(inp, i + 1) == LBrace {
      var s := ScanF(inp, table, MacroBody, i + 2);
      if s.Scanned? && s.evs != [] {
        MacroLookupAppend(table, Macro(Ident(inp, i), s.evs), name);
      }
    }
  }

  // ---------------------------------------------------------------------------
  // End-of-track events
  // ---------------------------------------------------------------------------

  predicate NoEot(evs: seq<Event>)
  {
    EndOfTrack !in evs
  }

  predicate TableNoEot(table: seq<Macro>)
  {
    forall k | 0 <= k < |table| :: NoEot(table[k].body)
  }

  /** No `;` among the tokens `i` up to `j`. */
  predicate NoSemicolon(inp: Input, i: nat, j: nat)
    requires j <= |inp.toks|
  {
    forall k | i <= k < j :: inp.toks[k].kind != Semicolon
  }

  /** The number of `;` tokens from `i` on. */
  function Semicolons(inp: Input, i: nat): nat
    requires i <= |inp.toks|
    decreases |inp.toks| - i
  {
    if i == |inp.toks| then 0
    else (if inp.toks[i].kind == Semicolon then 1 else 0) + Semicolons(inp, i + 1)
  }

  lemma {:induction false} SemicolonsSkip(inp: Input, i: nat, j: nat)
    requires i <= j <= |inp.toks| && NoSemicolon(inp, i, j)
    ensures Semicolons(inp, i) == Semicolons(inp, j)
    decreases j - i
  {
    if i < j {
      SemicolonsSkip(inp, i + 1, j);
    }
  }

  lemma UnrollNoEot(body: seq<Event>, brk: seq<Event>)
    requires NoEot(body) && NoEot(brk)
    ensures forall n: Uint32 :: NoEot(Unroll(body, brk, n))
  {
    forall n: Uint32
      ensures NoEot(Unroll(body, brk, n))
    {
      RepeatNoEot(body + brk, LoopIterations(n));
    }
  }

  lemma {:induction false} RepeatNoEot(s: seq<Event>, k: nat)
    requires NoEot(s)
    ensures NoEot(Repeat(s, k))
  {
    if k > 0 {
      RepeatNoEot(s, k - 1);
    }
  }

  /** What an action routine did from `i` ends no track, steps over no `;`,
      and is not the empty-input error. */
  predicate StepClean(inp: Input, i: nat, s: Step)
  {
    && (s.Matched? ==> NoEot(s.evs) && s.next <= |inp.toks| && NoSemicolon(inp, i, s.next))
    && (s.Failed? ==> s.err != EmptyInput)
  }

  /** The same for a body loop. */
  predicate ScanClean(inp: Input, i: nat, s: Scan)
  {
    && (s.Scanned? ==> NoEot(s.evs) && s.next <= |inp.toks| && NoSemicolon(inp, i, s.next))
    && (s.ScanFailed? ==> s.err != EmptyInput)
  }

  lemma NoteClean(inp: Input, i: nat)
    requires Fits(inp) && i < |inp.toks|
    ensures StepClean(inp, i, ParseNoteF(inp, i))
  {
    var r := ParseNoteF(inp, i);
    if r.Matched? {
      var k := AfterAccidental(inp, i);
      var m := AfterNumber(inp, k);
      assert r.next == m + DotRun(inp, m);
      forall j | i <= j < r.next
        ensures inp.toks[j].kind != Semicolon
      {
        if j >= m {
          assert Kind(inp, j) == Dot;
        }
      }
    }
  }

  lemma CommandClean(inp: Input, i: nat)
    requires Fits(inp) && i < |inp.toks|
    ensures StepClean(inp, i, ParseCommandF(inp, i))
  {
  }

  lemma ExpansionClean(inp: Input, table: seq<Macro>, i: nat)
    requires Fits(inp) && i < |inp.toks| && TableNoEot(table)
    ensures StepClean(inp, i, ParseExpansionF(inp, table, i))
  {
    if Kind(inp, i) == Expansion && inp.toks[i].size - 1 != 0 {
      MacroLookupFirst(table, Ident(inp, i));
    }
  }

  /** Actions never produce an end-of-track event (when no macro body holds
      one), never step over a `;`, and never fail with the empty-input error. */
  lemma {:induction false} ActionClean(inp: Input, table: seq<Macro>, i: nat)
    requires Fits(inp) && i < |inp.toks| && TableNoEot(table)
    ensures StepClean(inp, i, ParseActionF(inp, table, i))
    decreases |inp.toks| - i, 2
  {
    NoteClean(inp, i);
    CommandClean(inp, i);
    LoopClean(inp, table, i);
    ExpansionClean(inp, table, i);
  }

  lemma {:induction false} LoopClean(inp: Input, table: seq<Macro>, i: nat)
    requires Fits(inp) && i < |inp.toks| && TableNoEot(table)
    ensures StepClean(inp, i, ParseLoopF(inp, table, i))
    decreases |inp.toks| - i, 1
  {
    if Kind(inp, i) == LBracket {
      BodyClean(inp, table, LoopBody, i + 1);
      var s := ScanF(inp, table, LoopBody, i + 1);
      if s.ScanFailed? {
        assert ParseLoopF(inp, table, i) == Failed(s.err);
      } else {
        BreakClean(inp, table, s.next);
        var b := BreakScan(inp, table, s.next);
        if b.ScanFailed? {
          assert ParseLoopF(inp, table, i) == Failed(b.err);
        } else {
          ParseLoopScanned(inp, table, i, s.evs, s.next, b.evs, b.next);
          LoopCloseClean(inp, i, s.evs, s.next, b.evs, b.next);
        }
      }
    }
  }

  /** The end of a loop keeps the bodies' cleanliness: `]` and the count are not `;`. */
  lemma LoopCloseClean(inp: Input, i: nat, body: seq<Event>, j: nat, brk: seq<Event>, k: nat)
    requires Fits(inp) && i < j <= k < |inp.toks| && Kind(inp, i) == LBracket
    requires NoEot(body) && NoEot(brk) && NoSemicolon(inp, i + 1, j) && NoSemicolon(inp, j, k)
    ensures StepClean(inp, i, LoopClose(inp, body, brk, k))
  {
    var r := LoopClose(inp, body, brk, k);
    if r.Matched? {
      UnrollNoEot(body, brk);
      assert Kind(inp, k) == RBracket && Kind(inp, k + 1) == Number && r.next == k + 2;
      forall m | i <= m < r.next
        ensures inp.toks[m].kind != Semicolon
      {
        if i < m < j {
          assert NoSemicolon(inp, i + 1, j);
        } else if j <= m < k {
          assert NoSemicolon(inp, j, k);
        }
      }
    }
  }

  lemma {:induction false} BreakClean(inp: Input, table: seq<Macro>, j: nat)
    requires Fits(inp) && j < |inp.toks| && TableNoEot(table)
    ensures ScanClean(inp, j, BreakScan(inp, table, j))
    decreases |inp.toks| - j, 0
  {
    if Kind(inp, j) == Colon {
      BodyClean(inp, table, BreakBody, j + 1);
    }
  }

  lemma {:induction false} BodyClean(inp: Input, table: seq<Macro>, scope: Scope, i: nat)
    requires Fits(inp) && i < |inp.toks| && TableNoEot(table)
    ensures ScanClean(inp, i, ScanF(inp, table, scope, i))
    decreases |inp.toks| - i, 4
  {
    if !Stops(scope, Kind(inp, i)) {
      BodyItemClean(inp, table, scope, i);
    }
  }

  lemma {:induction false} BodyItemClean(inp: Input, table: seq<Macro>, scope: Scope, i: nat)
    requires Fits(inp) && i < |inp.toks| && TableNoEot(table)
    ensures ScanClean(inp, i, ScanItem(inp, table, scope, i))
    decreases |inp.toks| - i, 3
  {
    ActionClean(inp, table, i);
    var a := ParseActionF(inp, table, i);
    if a.Matched? {
      BodyClean(inp, table, scope, a.next);
      var rest := ScanF(inp, table, scope, a.next);
      if rest.Scanned? {
        assert ScanItem(inp, table, scope, i) == Scanned(a.evs + rest.evs, rest.next);
        assert NoSemicolon(inp, i, rest.next) by {
          forall j | i <= j < rest.next
            ensures inp.toks[j].kind != Semicolon
          {
            if j < a.next {
              assert NoSemicolon(inp, i, a.next);
            } else {
              assert NoSemicolon(inp, a.next, rest.next);
            }
          }
        }
      }
    }
  }

  /** A definition keeps every macro body free of end-of-track events. */
  lemma DefinitionClean(inp: Input, table: seq<Macro>, i: nat)
    requires Fits(inp) && i < |inp.toks| && Kind(inp, i) == Definition && TableNoEot(table)
    ensures DefinitionAt(inp, table, i).Defined? ==>
              TableNoEot(DefinitionAt(inp, table, i).table) && NoSemicolon(inp, i, DefinitionAt(inp, table, i).next)
    ensures DefinitionAt(inp, table, i).DefFailed? ==> DefinitionAt(inp, table, i).err != EmptyInput
  {
    if inp.toks[i].size - 1 != 0 && Kind(inp, i + 1) == LBrace {
      BodyClean(inp, table, MacroBody, i + 2);
    }
  }

  /** A track produces no end-of-track event and stops at, without consuming, a `;`. */
  lemma {:induction false} TrackClean(inp: Input, table: seq<Macro>, i: nat)
    requires Fits(inp) && i < |inp.toks| && TableNoEot(table)
    ensures ParseTrackF(inp, table, i).Tracked? ==>
              var t := ParseTrackF(inp, table, i);
              NoEot(t.evs) && NoSemicolon(inp, i, t.next) && TableNoEot(t.table)
    ensures ParseTrackF(inp, table, i).TrackFailed? ==> ParseTrackF(inp, table, i).err != EmptyInput
    decreases |inp.toks| - i, 1
  {
    if Kind(inp, i) != Eof && Kind(inp, i) != Semicolon {
      TrackItemClean(inp, table, i);
    }
  }

  lemma {:induction false} TrackItemClean(inp: Input, table: seq<Macro>, i: nat)
    requires Fits(inp) && i < |inp.toks| && Kind(inp, i) != Eof && Kind(inp, i) != Semicolon && TableNoEot(table)
    ensures TrackItem(inp, table, i).Tracked? ==>
              var t := TrackItem(inp, table, i);
              NoEot(t.evs) && NoSemicolon(inp, i, t.next) && TableNoEot(t.table)
    ensures TrackItem(inp, table, i).TrackFailed? ==> TrackItem(inp, table, i).err != EmptyInput
    decreases |inp.toks| - i, 0
  {
    if Kind(inp, i) == Definition {
      DefinitionClean(inp, table, i);
      var d := DefinitionAt(inp, table, i);
      if d.Defined? {
        TrackClean(inp, d.table, d.next);
      }
    } else {
      ActionClean(inp, table, i);
      var a := ParseActionF(inp, table, i);
      if a.Matched? {
        TrackClean(inp, table, a.next);
      }
    }
  }

  /** The loop of `mml_parse` appends exactly one end-of-track event per `;`
      from `i` on, and never fails with the empty-input error. */
  lemma {:induction false} TopLevelEots(inp: Input, table: seq<Macro>, i: nat)
    requires Fits(inp) && i < |inp.toks| && TableNoEot(table)
    ensures TopLevelF(inp, table, i).Ok? ==> multiset(TopLevelF(inp, table, i).value)[EndOfTrack] == Semicolons(inp, i)
    ensures TopLevelF(inp, table, i).Err? ==> TopLevelF(inp, table, i).error != EmptyInput
    decreases |inp.toks| - i, 1
  {
    var k := Kind(inp, i);
    if k == Eof {
      SemicolonsSkip(inp, i, |inp.toks|);
    } else if k == Semicolon {
      TopLevelEots(inp, table, i + 1);
      var rest := TopLevelF(inp, table, i + 1);
      if rest.Ok? {
        assert multiset([EndOfTrack] + rest.value) == multiset([EndOfTrack]) + multiset(rest.value);
      }
    } else {
      TrackThenRestEots(inp, table, i);
    }
  }

  lemma {:induction false} TrackThenRestEots(inp: Input, table: seq<Macro>, i: nat)
    requires Fits(inp) && i < |inp.toks| && Kind(inp, i) != Eof && Kind(inp, i) != Semicolon && TableNoEot(table)
    ensures TrackThenRest(inp, table, i).Ok? ==> multiset(TrackThenRest(inp, table, i).value)[EndOfTrack] == Semicolons(inp, i)
    ensures TrackThenRest(inp, table, i).Err? ==> TrackThenRest(inp, table, i).error != EmptyInput
    decreases |inp.toks| - i, 0
  {
    TrackClean(inp, table, i);
    var t := ParseTrackF(inp, table, i);
    if t.Tracked? {
      TopLevelEots(inp, t.table, t.next);
      SemicolonsSkip(inp, i, t.next);
      var rest := TopLevelF(inp, t.table, t.next);
      if rest.Ok? {
        assert multiset(t.evs + rest.value) == multiset(t.evs) + multiset(rest.value);
      }
    }
  }

  /** `mml_parse` returns -1 exactly when the first token is the end of input;
      on success it appends one end-of-track event per `;` of the input. */
  lemma MmlParseEots(inp: Input)
    requires Fits(inp)
    ensures MmlParseF(inp) == Err(EmptyInput) <==> Kind(inp, 0) == Eof
    ensures MmlParseF(inp).Ok? ==> multiset(MmlParseF(inp).value)[EndOfTrack] == Semicolons(inp, 0)
  {
    TopLevelEots(inp, [], 0);
  }
}
