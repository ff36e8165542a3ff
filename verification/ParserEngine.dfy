/** The table interpreter of src/shared/parser.c. */
module ParserEngine {
  import opened Bytes

  /** A C int. */
  type cint = x: int | -0x8000_0000 <= x < 0x8000_0000

  const ANY: cint := 512

  /** struct parser_event: its type and the byte its action copied. */
  datatype Event<E> = Event(kind: E, c: byte)

  /** act1 is required, act2 optional. */
  datatype Transition<E> = Transition(when_: cint, dest: nat, act1: E, act2: Option<E>)

  /** states[i] points at the first of the states_n[i] transitions of state i. */
  datatype Definition<E> = Definition(table: seq<Transition<E>>, states: seq<nat>, counts: seq<nat>, start: nat) {

    ghost predicate Valid() {
      && |states| == |counts| && start < |states|
      && (forall i :: 0 <= i < |states| ==> states[i] + counts[i] <= |table|)
      && (forall i :: 0 <= i < |states| ==>
            forall j :: states[i] <= j < states[i] + counts[i] ==> table[j].dest < |states|)
    }

    function Row(i: nat): seq<Transition<E>>
      requires Valid() && i < |states|
    {
      table[states[i]..states[i] + counts[i]]
    }
  }

  /** The condition of a transition: a byte, anything, or a class bit. */
  predicate Matches(w: cint, c: byte, class_: bv32) {
    if w <= 0xFF then c == w else if w == ANY then true else class_ & (w as bv32) != 0
  }

  /** The first transition that applies, or the row's length. */
  function FirstMatch<E>(row: seq<Transition<E>>, c: byte, class_: bv32): (k: nat)
    ensures k <= |row| && (k < |row| ==> Matches(row[k].when_, c, class_))
    ensures forall j :: 0 <= j < k ==> !Matches(row[j].when_, c, class_)
  {
    if row == [] || Matches(row[0].when_, c, class_) then 0 else 1 + FirstMatch(row[1..], c, class_)
  }

  /** The state of a parser and the events it hands out; e1 is stale when nothing matched. */
  datatype Machine<E> = Machine(state: nat, e1: Option<Event<E>>, e2: Option<Event<E>>)

  function Fed<E>(m: Machine<E>, def: Definition<E>, class_: bv32, c: byte): (r: Machine<E>)
    requires def.Valid() && m.state < |def.states|
    ensures r.state < |def.states|
  {
    var row := def.Row(m.state);
    var k := FirstMatch(row, c, class_);
    if k == |row| then m.(e2 := None)
    else Machine(row[k].dest, Some(Event(row[k].act1, c)),
                 if row[k].act2.None? then None else Some(Event(row[k].act2.value, c)))
  }

  function FedAll<E>(m: Machine<E>, def: Definition<E>, classes: seq<bv32>, t: seq<byte>): (r: Machine<E>)
    requires def.Valid() && m.state < |def.states| && |classes| == 256
    ensures r.state < |def.states|
  {
    if t == [] then m
    else Fed(FedAll(m, def, classes, t[..|t| - 1]), def, classes[t[|t| - 1]], t[|t| - 1])
  }

  class Parser<E> {
    const classes: seq<bv32>
    const def: Definition<E>
    var state: nat
    var e1: Option<Event<E>>
    /** The second event, when the last transition had one. */
    var e2: Option<Event<E>>

    ghost predicate Valid()
      reads this
    {
      def.Valid() && |classes| == 256 && state < |def.states|
    }

    ghost function View(): Machine<E>
      reads this
    {
      Machine(state, e1, e2)
    }

    /** parser_init. */
    constructor (classes: seq<bv32>, def: Definition<E>)
      requires def.Valid() && |classes| == 256
      ensures Valid() && this.classes == classes && this.def == def
      ensures View() == Machine(def.start, None, None)
    {
      this.classes, this.def := classes, def;
      state, e1, e2 := def.start, None, None;
    }

    /** parser_reset. */
    method Reset()
      requires Valid()
      modifies this`state
      ensures Valid() && View() == old(View()).(state := def.start)
    {
      state := def.start;
    }

    /** parser_feed: the transitions of the state are tried in order. */
    method Feed(c: byte)
      requires Valid()
      modifies this
      ensures Valid() && View() == Fed(old(View()), def, classes[c], c)
    {
      var class_ := classes[c];
      e2 := None;
      var n := def.counts[state];
      var first := def.states[state];
      ghost var row := def.Row(state);
      var i := 0;
      while i < n
        invariant 0 <= i <= n && e1 == old(e1) && e2 == None && state == old(state)
        invariant forall j :: 0 <= j < i ==> !Matches(row[j].when_, c, class_)
      {
        var tr := def.table[first + i];
        assert tr == row[i];
        if Matches(tr.when_, c, class_) {
          e1 := Some(Event(tr.act1, c));
          if tr.act2.Some? {
            e2 := Some(Event(tr.act2.value, c));
          }
          state := tr.dest;
          return;
        }
        i := i + 1;
      }
    }
  }
}
