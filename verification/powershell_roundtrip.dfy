/** A rendered PowerShell script is read back as the operations it holds. */
module PowerShellRoundTrip {
  import opened Text
  import opened ValueFormat
  import opened Operations
  import opened KeyPaths
  import opened PowerShellLexer
  import opened PowerShellItems
  import opened PowerShellGrammar
  import opened PowerShellInterpreter
  import opened PowerShellEvaluation
  import opened PowerShellWriter
  import opened PowerShellPieces
  import opened PowerShellLines
  import opened PowerShellLayout
  import opened PowerShellStatements
  import opened PowerShellLineRuns
  import opened PowerShellValueRuns
  import opened PowerShellScript
  import opened PowerShellFrontRuns

  /** The operations a script holds: those that are not skipped, under the keys that are opened for them; a root key
      is opened without being created. */
  function ReadBack(ops: seq<Operation>, current: Option<wstring>): seq<Operation>
    decreases |ops|
  {
    if ops == [] then []
    else
      var op := ops[0];
      if Fault(op).Some? then ReadBack(ops[1..], current)
      else if op.RemoveKey? then [op] + ReadBack(ops[1..], None)
      else (if current == Some(op.path) then [] else Created(op.path)) + (Own(op) + ReadBack(ops[1..], Some(op.path)))
  }

  // ----- runs one after the other

  lemma RunsTrans(ts: seq<Token>, st: State, count: nat, variables: Variables, ops: seq<Operation>, more: nat,
      later: Variables, others: seq<Operation>)
    requires Runs(ts, st, count, variables, ops)
             && Runs(ts, State(st.position + count, variables, st.output + ops), more, later, others)
    ensures Runs(ts, st, count + more, later, ops + others)
  {
    ConcatAssoc(st.output, ops, others);
    hide RunFrom;
  }

  lemma NothingRuns(ts: seq<Token>, st: State)
    requires st.position <= |ts|
    ensures Runs(ts, st, 0, st.variables, [])
  {
    assert st.output + [] == st.output;
    hide RunFrom;
  }

  /** The key in `$key` is the open one. */
  predicate HoldsKey(variables: Variables, current: Option<wstring>) {
    current.Some? ==> KEY_NAME in variables && variables[KEY_NAME] == OpenKey(current.value)
  }

  lemma LineRuns(ts: seq<Token>, st: State, op: Operation)
    requires Normalized(op.path) && Fault(op).None? && HasTokens(ts, st.position, TokensOf(LinePieces(op)))
             && st.position <= |ts|
    requires op.RemoveKey? || HoldsKey(st.variables, Some(op.path))
    ensures Runs(ts, st, |TokensOf(LinePieces(op))|, st.variables, Own(op))
  {
    hide Runs, HasTokens, TokensOf, Normalized, Fault, RemoveKeyPieces, RemoveValuePieces, ManagedPieces, NativePieces;
    hide DotNetValue, KEY_NAME;
    match op
    case Key(_) =>
      NoPieces();
      NothingRuns(ts, st);
    case RemoveKey(path) => RemoveKeyRuns(ts, st, path);
    case RemoveValue(path, name) => RemoveValueRuns(ts, st, path, name);
    case SetValue(path, value) =>
      if DotNetValue(value).Some? { ManagedRuns(ts, st, path, value); } else { NativeRuns(ts, st, path, value); }
  }

  // ----- the body

  lemma UnfoldReadBack(ops: seq<Operation>, current: Option<wstring>)
    requires ops != []
    ensures ReadBack(ops, current) ==
              var op := ops[0];
              if Fault(op).Some? then ReadBack(ops[1..], current)
              else if op.RemoveKey? then Own(op) + ReadBack(ops[1..], None)
              else
                (if current == Some(op.path) then []
                 else Created(op.path)) + (Own(op) + ReadBack(ops[1..], Some(op.path)))
    ensures BodyPieces(ops, current) ==
              var op := ops[0];
              if Fault(op).Some? then BodyPieces(ops[1..], current)
              else if op.RemoveKey? then LinePieces(op) + BodyPieces(ops[1..], None)
              else
                (if current == Some(op.path) then []
                 else OpenPieces(op.path)) + (LinePieces(op) + BodyPieces(ops[1..], Some(op.path)))
  {
    hide Fault, LinePieces, OpenPieces, Created;
  }

  /** A line and the body behind it. */
  lemma LineThenRuns(ts: seq<Token>, st: State, op: Operation, ops: seq<Operation>, next: Option<wstring>)
    returns (variables: Variables)
    requires Normalized(op.path) && Fault(op).None? && AreNormalized(ops) && st.position <= |ts|
    requires next == (if op.RemoveKey? then None else Some(op.path)) && HoldsKey(st.variables, next)
    requires HasTokens(ts, st.position, TokensOf(LinePieces(op) + BodyPieces(ops, next)))
    ensures Runs(ts, st, |TokensOf(LinePieces(op) + BodyPieces(ops, next))|, variables, Own(op) + ReadBack(ops, next))
    decreases |ops|, 1
  {
    hide Runs, HasTokens, TokensOf, Normalized, Fault, LinePieces, BodyPieces, ReadBack, Own, HoldsKey, AreNormalized;
    FlatConcat(LinePieces(op), BodyPieces(ops, next));
    HasTokensSplit(ts, st.position, TokensOf(LinePieces(op)), TokensOf(BodyPieces(ops, next)));
    LineRuns(ts, st, op);
    var after := State(st.position + |TokensOf(LinePieces(op))|, st.variables, st.output + Own(op));
    RunsBounded(ts, st, |TokensOf(LinePieces(op))|, st.variables, Own(op));
    variables := BodyRuns(ts, after, ops, next);
    RunsTrans(ts, st, |TokensOf(LinePieces(op))|, st.variables, Own(op), |TokensOf(BodyPieces(ops, next))|, variables,
              ReadBack(ops, next));
  }

  lemma RunsBounded(ts: seq<Token>, st: State, count: nat, variables: Variables, ops: seq<Operation>)
    requires Runs(ts, st, count, variables, ops)
    ensures st.position + count <= |ts|
  {
    hide RunFrom;
  }

  lemma OpenHolds(variables: Variables, path: wstring)
    ensures HoldsKey(variables[KEY_NAME := OpenKey(path)], Some(path))
  {
    hide KEY_NAME;
  }

  lemma NoneHolds(variables: Variables)
    ensures HoldsKey(variables, None)
  {}

  /** The lines of the operations, run one after the other, add what they hold. */
  lemma {:induction false} BodyRuns(ts: seq<Token>, st: State, ops: seq<Operation>, current: Option<wstring>)
    returns (variables: Variables)
    requires AreNormalized(ops) && st.position <= |ts| && HoldsKey(st.variables, current)
    requires HasTokens(ts, st.position, TokensOf(BodyPieces(ops, current)))
    ensures Runs(ts, st, |TokensOf(BodyPieces(ops, current))|, variables, ReadBack(ops, current))
    decreases |ops|, 0
  {
    hide *;
    variables := st.variables;
    if ops == [] {
      NoPieces();
      NothingHeld(current);
      NothingRuns(ts, st);
    } else {
      var op, rest := ops[0], ops[1..];
      UnfoldReadBack(ops, current);
      HeadIsNormalized(ops);
      NoneHolds(st.variables);
      if Fault(op).Some? {
        variables := BodyRuns(ts, st, rest, current);
      } else if op.RemoveKey? {
        variables := LineThenRuns(ts, st, op, rest, None);
      } else if current == Some(op.path) {
        NothingAround(LinePieces(op) + BodyPieces(rest, current));
        NothingAround(Own(op) + ReadBack(rest, current));
        variables := LineThenRuns(ts, st, op, rest, current);
      } else {
        var tail := LinePieces(op) + BodyPieces(rest, Some(op.path));
        var holding := st.variables[KEY_NAME := OpenKey(op.path)];
        var count := |TokensOf(OpenPieces(op.path))|;
        FlatConcat(OpenPieces(op.path), tail);
        HasTokensSplit(ts, st.position, TokensOf(OpenPieces(op.path)), TokensOf(tail));
        OpenRuns(ts, st, op.path);
        RunsBounded(ts, st, count, holding, Created(op.path));
        OpenHolds(st.variables, op.path);
        variables := LineThenRuns(ts, State(st.position + count, holding, st.output + Created(op.path)), op, rest,
                                  Some(op.path));
        RunsTrans(ts, st, count, holding, Created(op.path), |TokensOf(tail)|, variables, Own(op)
                  + ReadBack(rest, Some(op.path)));
      }
    }
  }

  lemma NothingHeld(current: Option<wstring>)
    ensures BodyPieces([], current) == [] && ReadBack([], current) == []
  {}

  lemma HeadIsNormalized(ops: seq<Operation>)
    requires AreNormalized(ops) && ops != []
    ensures Normalized(ops[0].path) && AreNormalized(ops[1..])
  {
    hide Normalized;
  }

  // ----- the script

  lemma FrontRuns(ts: seq<Token>, st: State, admin: bool, native: bool) returns (variables: Variables)
    requires st.position <= |ts| && HasTokens(ts, st.position, TokensOf(FrontPieces(admin, native)))
    ensures Runs(ts, st, |TokensOf(FrontPieces(admin, native))|, variables, [])
  {
    hide *;
    FrontPiecesAre(admin, native);
    var front: seq<Piece> := if admin then REQUIRES_PIECES else [];
    var helper: seq<Piece> := if native then HELPER_PIECES else [];
    FlatConcat(front, STOP_PIECES + helper);
    FlatConcat(STOP_PIECES, helper);
    NoPieces();
    var a, b, c := |TokensOf(front)|, |TokensOf(STOP_PIECES)|, |TokensOf(helper)|;
    HasTokensSplit(ts, st.position, TokensOf(front), TokensOf(STOP_PIECES) + TokensOf(helper));
    HasTokensSplit(ts, st.position + a, TokensOf(STOP_PIECES), TokensOf(helper));
    NothingAround<Operation>([]);
    NothingRuns(ts, st);
    if admin { RequiresRuns(ts, st); }
    RunsBounded(ts, st, a, st.variables, []);
    var second := State(st.position + a, st.variables, st.output + []);
    StopRuns(ts, second);
    variables := second.variables[ToLower(PREFERENCE_NAME) := Str(STOP_NAME)];
    RunsBounded(ts, second, b, variables, []);
    RunsTrans(ts, st, a, st.variables, [], b, variables, []);
    var third := State(st.position + (a + b), variables, st.output + ([] + []));
    NothingRuns(ts, third);
    if native { HelperRuns(ts, third); }
    RunsTrans(ts, st, a + b, variables, [] + [], c, variables, []);
  }

  lemma FrontPiecesAre(admin: bool, native: bool)
    ensures FrontPieces(admin, native) == (if admin then REQUIRES_PIECES
                                           else []) + (STOP_PIECES + (if native then HELPER_PIECES else []))
  {
    hide REQUIRES_PIECES, STOP_PIECES, HELPER_PIECES;
  }

  lemma ScriptEnds(ts: seq<Token>, i: nat, variables: Variables, ops: seq<Operation>)
    requires HasTokens(ts, i, [NEWLINE, Plain(End, [])])
    ensures i <= |ts| && RunFrom(ts, State(i, variables, ops)) == Some(ops)
  {
    hide *;
    var st := State(i, variables, ops);
    HasTokenAt(ts, i, [NEWLINE, Plain(End, [])], 0);
    HasTokenAt(ts, i, [NEWLINE, Plain(End, [])], 1);
    StepIs(st, 1);
    NewlineRuns(ts, st);
    EndRuns(ts, Step(st, 1));
  }

  lemma EndRuns(ts: seq<Token>, st: State)
    requires st.position < |ts| && ts[st.position] == Plain(End, [])
    ensures RunFrom(ts, st) == Some(st.output)
  {
    hide Statement;
  }

  lemma TokensRun(ops: seq<Operation>, admin: bool, native: bool)
    requires AreNormalized(ops)
    ensures var pieces := FrontPieces(admin, native) + BodyPieces(ops, None);
            Meaning(TokensOf(pieces) + [Plain(Newline, []), Plain(End, [])]) == Some(ReadBack(ops, None))
  {
    hide *;
    var front, body := FrontPieces(admin, native), BodyPieces(ops, None);
    var end := [NEWLINE, Plain(End, [])];
    var ts := TokensOf(front + body) + end;
    var a, b := |TokensOf(front)|, |TokensOf(body)|;
    FlatConcat(front, body);
    HasTokensSplit(ts, 0, TokensOf(front + body), end);
    HasTokensSplit(ts, 0, TokensOf(front), TokensOf(body));
    StartIs(ts);
    var variables := FrontRuns(ts, START, admin, native);
    RunsBounded(ts, START, a, variables, []);
    var second := State(a, variables, [] + []);
    NoneHolds(variables);
    var later := BodyRuns(ts, second, ops, None);
    RunsTrans(ts, START, a, variables, [], b, later, ReadBack(ops, None));
    NothingAround(ReadBack(ops, None));
    ScriptEnds(ts, a + b, later, ReadBack(ops, None));
    MeaningIs(ts, a + b, later, ReadBack(ops, None));
  }

  lemma StartIs(ts: seq<Token>)
    ensures START == State(0, map[], []) && NEWLINE == Plain(Newline, [])
  {}

  lemma MeaningIs(ts: seq<Token>, count: nat, variables: Variables, ops: seq<Operation>)
    requires Runs(ts, START, count, variables, [] + ops) && RunFrom(ts, State(count, variables, ops)) == Some(ops)
    ensures Meaning(ts) == Some(ops)
  {
    assert [] + ([] + ops) == ops;
    hide RunFrom;
  }

  /** Rendering and reading back: every operation that is not skipped comes back as it was, with the key operations
      of the keys that were opened. */
  lemma PowerShellIsReadBack(ops: seq<Operation>, adminCheck: bool)
    requires AreNormalized(ops)
    ensures PowerShellOperations(Rendered(ops, adminCheck)) == Some(ReadBack(ops, None))
  {
    hide Tokens, Meaning, Rendered, AreNormalized, FrontPieces, BodyPieces, TokensOf, NeedsAdmin, NeedsNative, ReadBack;
    ScriptIsTokens(ops, adminCheck);
    TokensRun(ops, adminCheck && NeedsAdmin(ops), NeedsNative(ops));
  }
}
