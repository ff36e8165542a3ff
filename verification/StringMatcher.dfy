/**
 * The compiler of src/shared/parser_utils.c:75-139, which turns a string into a
 * transition table, and what the interpreter does with that table.
 */
module StringMatcher {
  import opened Bytes
  import opened ParserEngine

  datatype Verdict = MayEq | Eq | Neq

  /** tolower and toupper in the C locale. */
  function Lower(c: byte): byte { if 65 <= c <= 90 then c + 32 else c }
  function Upper(c: byte): byte { if 97 <= c <= 122 then c - 32 else c }

  type Step = Transition<Verdict>

  /** The transition taken on the i-th byte of s, and its refusal. */
  function Advance(s: seq<byte>, i: nat, w: cint): Step
    requires i < |s|
  {
    Transition(w, i + 1, if i + 1 == |s| then Eq else MayEq, None)
  }

  function Refuse(n: nat): Step { Transition(ANY, n + 1, Neq, None) }

  /** The rows of the table for s: one per byte, one for equal, one for different. */
  ghost predicate Compiled(s: seq<byte>, def: Definition<Verdict>) {
    && def.Valid() && |def.states| == |s| + 2 && def.start == 0
    && (forall i :: 0 <= i < |s| ==>
          def.Row(i) == [Advance(s, i, Lower(s[i])), Advance(s, i, Upper(s[i])), Refuse(|s|)])
    && (forall i :: |s| <= i < |s| + 2 ==> def.Row(i) == [Refuse(|s|)])
  }

  /** The three transitions of byte j are in the flat table. */
  ghost predicate Filled(table: seq<Step>, s: seq<byte>, j: nat) {
    && j < |s| && 3 * j + 2 < |table|
    && table[3 * j] == Advance(s, j, Lower(s[j]))
    && table[3 * j + 1] == Advance(s, j, Upper(s[j]))
    && table[3 * j + 2] == Refuse(|s|)
  }

  /** Writing behind the first i rows leaves them as they were. */
  lemma FilledStays(a: seq<Step>, b: seq<Step>, s: seq<byte>, i: nat)
    requires |a| == |b| >= 3 * i && forall k :: 0 <= k < 3 * i ==> a[k] == b[k]
    requires forall j :: 0 <= j < i ==> Filled(a, s, j)
    ensures forall j :: 0 <= j < i ==> Filled(b, s, j)
  {
    forall j | 0 <= j < i ensures Filled(b, s, j) {
      assert Filled(a, s, j);
    }
  }

  /** Flat table, offsets and counts as the loop leaves them. */
  ghost predicate Laid(s: seq<byte>, table: seq<Step>, states: seq<nat>, counts: seq<nat>) {
    var n := |s|;
    && |table| == 3 * (n + 2) && |states| == |counts| == n + 2
    && (forall j :: 0 <= j < n ==> Filled(table, s, j))
    && table[3 * n] == Refuse(n) && table[3 * n + 3] == Refuse(n)
    && (forall j :: 0 <= j < n + 2 ==> states[j] == 3 * j)
    && (forall j :: 0 <= j < n + 2 ==> counts[j] == if j < n then 3 else 1)
  }

  lemma LaidIsCompiled(s: seq<byte>, table: seq<Step>, states: seq<nat>, counts: seq<nat>)
    requires Laid(s, table, states, counts)
    ensures Compiled(s, Definition(table, states, counts, 0))
  {
    var def := Definition(table, states, counts, 0);
    LaidIsValid(s, table, states, counts);
    forall i | 0 <= i < |s|
      ensures def.Row(i) == [Advance(s, i, Lower(s[i])), Advance(s, i, Upper(s[i])), Refuse(|s|)]
    {
      assert Filled(table, s, i);
    }
  }

  lemma LaidIsValid(s: seq<byte>, table: seq<Step>, states: seq<nat>, counts: seq<nat>)
    requires Laid(s, table, states, counts)
    ensures Definition(table, states, counts, 0).Valid()
  {
    forall i, j | 0 <= i < |states| && states[i] <= j < states[i] + counts[i] ensures table[j].dest < |states| {
      if i < |s| { assert Filled(table, s, i); }
    }
  }

  /** parser_utils_strcmpi, when memory lasts: flat table, offsets and counts filled in one loop. */
  method Compile(s: seq<byte>) returns (def: Definition<Verdict>)
    requires Ascii(s)
    ensures Compiled(s, def)
  {
    hide Filled;
    var n := |s|;
    var table, states, counts := Allocate(n);
    var i := 0;
    while i < n
      invariant 0 <= i <= n
      invariant forall j :: 0 <= j < i ==> states[j] == 3 * j && counts[j] == 3
      invariant forall j :: 0 <= j < i ==> Filled(table[..], s, j)
    {
      FillRow(table, s, i);
      states[i] := i * 3;
      counts[i] := 3;
      i := i + 1;
    }
    ghost var rows := table[..];
    table[n * 3] := Refuse(n);
    states[n], counts[n] := n * 3, 1;
    table[(n + 1) * 3] := Refuse(n);
    states[n + 1], counts[n + 1] := (n + 1) * 3, 1;
    FilledStays(rows, table[..], s, n);
    LaidIsCompiled(s, table[..], states[..], counts[..]);
    def := Definition(table[..], states[..], counts[..], 0);
  }

  /** The body of the loop, as far as the flat table goes. */
  method FillRow(table: array<Step>, s: seq<byte>, i: nat)
    requires table.Length == 3 * (|s| + 2) && i < |s|
    requires forall j :: 0 <= j < i ==> Filled(table[..], s, j)
    modifies table
    ensures forall j :: 0 <= j < i + 1 ==> Filled(table[..], s, j)
  {
    ghost var before := table[..];
    table[i * 3] := Advance(s, i, Lower(s[i]));
    table[i * 3 + 1] := Advance(s, i, Upper(s[i]));
    table[i * 3 + 2] := Refuse(|s|);
    FilledStays(before, table[..], s, i);
  }

  method Allocate(n: nat) returns (table: array<Step>, states: array<nat>, counts: array<nat>)
    ensures fresh(table) && fresh(states) && fresh(counts) && states != counts
    ensures table.Length == 3 * (n + 2) && states.Length == counts.Length == n + 2
  {
    table := new Step[3 * (n + 2)](_ => Transition(0, 0, MayEq, None));
    states := new nat[n + 2](_ => 0);
    counts := new nat[n + 2](_ => 0);
  }

  // ----- What the table does

  predicate SameLetter(a: byte, b: byte) { Lower(a) == Lower(b) }

  /** t matches the beginning of s, ignoring case. */
  predicate Begins(t: seq<byte>, s: seq<byte>) {
    |t| <= |s| && forall i :: 0 <= i < |t| ==> SameLetter(t[i], s[i])
  }

  /** The comparison the table is meant to make. */
  function Compared(s: seq<byte>, t: seq<byte>): Verdict {
    if Begins(t, s) then if |t| == |s| then Eq else MayEq else Neq
  }

  function StateAfter(s: seq<byte>, t: seq<byte>): nat {
    if Begins(t, s) then |t| else |s| + 1
  }

  /** Strings of 7-bit characters, for which tolower and toupper are defined whatever the sign of char. */
  predicate Ascii(s: seq<byte>) { forall i :: 0 <= i < |s| ==> s[i] < 128 }

  lemma FirstOfThree(row: seq<Step>, c: byte, class_: bv32)
    requires |row| == 3 && row[0].when_ <= 0xFF && row[1].when_ <= 0xFF && row[2].when_ == ANY
    ensures FirstMatch(row, c, class_) == if c == row[0].when_ then 0 else if c == row[1].when_ then 1 else 2
  {
  }

  lemma FirstOfOne(row: seq<Step>, c: byte, class_: bv32)
    requires |row| == 1 && row[0].when_ == ANY
    ensures FirstMatch(row, c, class_) == 0
  {
  }

  lemma BeginsSnoc(t: seq<byte>, c: byte, s: seq<byte>)
    ensures Begins(t + [c], s) <==> Begins(t, s) && |t| < |s| && SameLetter(c, s[|t|])
  {
    if Begins(t + [c], s) {
      assert forall i :: 0 <= i < |t| ==> (t + [c])[i] == t[i];
      assert (t + [c])[|t|] == c;
    }
  }

  /** One more byte. */
  lemma FedOnce(s: seq<byte>, def: Definition<Verdict>, t: seq<byte>, m: Machine<Verdict>, c: byte, class_: bv32)
    requires Compiled(s, def) && m.state == StateAfter(s, t)
    ensures Fed(m, def, class_, c)
         == Machine(StateAfter(s, t + [c]), Some(Event(Compared(s, t + [c]), c)), None)
  {
    hide FirstMatch, Begins;
    BeginsSnoc(t, c, s);
    BeginsIsShorter(t, s);
    BeginsIsShorter(t + [c], s);
    var row := def.Row(m.state);
    if Begins(t, s) && |t| < |s| {
      FirstOfThree(row, c, class_);
    } else {
      FirstOfOne(row, c, class_);
    }
  }

  lemma BeginsIsShorter(t: seq<byte>, s: seq<byte>)
    ensures Begins(t, s) ==> |t| <= |s|
  {
  }

  /**
   * For every string and every non-empty input the last event is EQ exactly if
   * the input equals the string ignoring case, MAYEQ exactly if it is a proper
   * beginning of it, and NEQ otherwise.
   */
  lemma {:induction false} MatcherCompares(s: seq<byte>, def: Definition<Verdict>, classes: seq<bv32>, t: seq<byte>)
    requires Compiled(s, def) && |classes| == 256
    ensures var m := FedAll(Machine(def.start, None, None), def, classes, t);
            m.state == StateAfter(s, t) && (t != [] ==> m.e1 == Some(Event(Compared(s, t), t[|t| - 1])) && m.e2 == None)
  {
    hide Compiled, Fed;
    if t == [] {
      StartsAtZero(s, def);
    } else {
      var init, c := t[..|t| - 1], t[|t| - 1];
      assert t == init + [c];
      MatcherCompares(s, def, classes, init);
      CompiledValid(s, def);
      FedOnce(s, def, init, FedAll(Machine(def.start, None, None), def, classes, init), c, classes[c]);
    }
  }

  lemma CompiledValid(s: seq<byte>, def: Definition<Verdict>)
    requires Compiled(s, def)
    ensures def.Valid()
  {
  }

  lemma StartsAtZero(s: seq<byte>, def: Definition<Verdict>)
    requires Compiled(s, def)
    ensures def.Valid() && def.start == StateAfter(s, [])
  {
  }

  /** NEQ is forever. */
  lemma DifferentStaysDifferent(s: seq<byte>, t: seq<byte>, more: seq<byte>)
    requires Compared(s, t) == Neq
    ensures Compared(s, t + more) == Neq
  {
    if Begins(t + more, s) {
      assert forall i :: 0 <= i < |t| ==> (t + more)[i] == t[i];
    }
  }

  /** The compiler and the interpreter together: comparing two strings. */
  method CompareIgnoringCase(s: seq<byte>, t: seq<byte>, classes: seq<bv32>) returns (v: Option<Verdict>)
    requires Ascii(s) && |classes| == 256
    ensures v == if t == [] then None else Some(Compared(s, t))
  {
    hide Compiled, Compared, Fed;
    var def := Compile(s);
    CompiledValid(s, def);
    var p := new Parser(classes, def);
    for i := 0 to |t|
      invariant p.Valid() && p.def == def && p.classes == classes
      invariant p.View() == FedAll(Machine(def.start, None, None), def, classes, t[..i])
    {
      assert t[..i + 1][..i] == t[..i];
      p.Feed(t[i]);
    }
    assert t[..|t|] == t;
    MatcherCompares(s, def, classes, t);
    v := if p.e1.None? then None else Some(p.e1.value.kind);
  }
}
