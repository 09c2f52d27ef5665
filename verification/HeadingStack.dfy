/** The stack of open headings and the owner it gives to each segment (analyzer/document.rs, emit_heading).
    A segment list is looked at only through its levels: Some(level) for a heading, None for a sentence. */
module HeadingStack {
  import opened Options

  type Levels = seq<Option<nat>>

  /** The last heading whose level is below the bound, as a position from 1; 0 when there is none. */
  ghost function LastBelow(levels: Levels, bound: nat): (r: nat)
    ensures r <= |levels|
  {
    if levels == [] then 0
    else
      var l := levels[|levels| - 1];
      if l.Some? && l.value < bound then |levels| else LastBelow(levels[..|levels| - 1], bound)
  }

  /** The last heading, as a position from 1; 0 when there is none. */
  ghost function LastHeading(levels: Levels): (r: nat)
    ensures r <= |levels|
  {
    if levels == [] then 0
    else if levels[|levels| - 1].Some? then |levels|
    else LastHeading(levels[..|levels| - 1])
  }

  /** Who owns segment i: a heading belongs to the most recent earlier heading of smaller level, a sentence to the
      most recent heading; 0 stands for the file, j + 1 for segment j. */
  ghost function Owner(levels: Levels, i: nat): (r: nat)
    requires i < |levels|
    ensures r <= i
  {
    if levels[i].Some? then LastBelow(levels[..i], levels[i].value) else LastHeading(levels[..i])
  }

  /** LastBelow says what its name says. */
  lemma {:induction false} LastBelowMeaning(levels: Levels, bound: nat)
    ensures var r := LastBelow(levels, bound);
      && (r > 0 ==> levels[r - 1].Some? && levels[r - 1].value < bound)
      && (forall j :: r <= j < |levels| ==> levels[j] == None || levels[j].value >= bound)
  {
    if levels != [] { LastBelowMeaning(levels[..|levels| - 1], bound); }
  }

  lemma {:induction false} LastHeadingMeaning(levels: Levels)
    ensures var r := LastHeading(levels);
      && (r > 0 ==> levels[r - 1].Some?)
      && (forall j :: r <= j < |levels| ==> levels[j] == None)
  {
    if levels != [] { LastHeadingMeaning(levels[..|levels| - 1]); }
  }

  // ---------- the stack ----------

  datatype Open = Open(level: nat, position: nat)

  ghost function Popped(stack: seq<Open>, level: nat): (r: seq<Open>)
    ensures r <= stack
  {
    if stack != [] && stack[|stack| - 1].level >= level then Popped(stack[..|stack| - 1], level) else stack
  }

  /** The stack after a list of segments. */
  ghost function StackOf(levels: Levels): seq<Open> {
    if levels == [] then []
    else
      var before, l := StackOf(levels[..|levels| - 1]), levels[|levels| - 1];
      if l == None then before else Popped(before, l.value) + [Open(l.value, |levels|)]
  }

  ghost function Top(stack: seq<Open>): nat {
    if stack == [] then 0 else stack[|stack| - 1].position
  }

  ghost predicate Increasing(stack: seq<Open>) {
    forall i, j :: 0 <= i < j < |stack| ==> stack[i].level < stack[j].level
  }

  lemma {:induction false} PoppedBelow(stack: seq<Open>, level: nat)
    requires Increasing(stack)
    ensures Increasing(Popped(stack, level))
    ensures forall i :: 0 <= i < |Popped(stack, level)| ==> Popped(stack, level)[i].level < level
  {
    if stack != [] && stack[|stack| - 1].level >= level { PoppedBelow(stack[..|stack| - 1], level); }
  }

  lemma {:induction false} PoppedTwice(stack: seq<Open>, high: nat, low: nat)
    requires low <= high
    ensures Popped(Popped(stack, high), low) == Popped(stack, low)
  {
    if stack != [] && stack[|stack| - 1].level >= high { PoppedTwice(stack[..|stack| - 1], high, low); }
  }

  /** The levels on the stack are strictly increasing. */
  lemma {:induction false} StackIncreasing(levels: Levels)
    ensures Increasing(StackOf(levels))
  {
    if levels != [] {
      var rest := levels[..|levels| - 1];
      StackIncreasing(rest);
      if levels[|levels| - 1].Some? { PoppedBelow(StackOf(rest), levels[|levels| - 1].value); }
    }
  }

  /** What is on top is the most recent heading, and after popping the most recent one of smaller level. */
  lemma {:induction false} TopIsOwner(levels: Levels, level: nat)
    ensures Top(StackOf(levels)) == LastHeading(levels)
    ensures Top(Popped(StackOf(levels), level)) == LastBelow(levels, level)
  {
    if levels != [] {
      var rest, l := levels[..|levels| - 1], levels[|levels| - 1];
      TopIsOwner(rest, level);
      if l.Some? {
        var stack := StackOf(levels);
        assert stack[..|stack| - 1] == Popped(StackOf(rest), l.value);
        if l.value >= level { PoppedTwice(StackOf(rest), l.value, level); }
      }
    }
  }

  // ---------- the tree ----------

  /** One owner up, until the file. */
  ghost function Ancestor(levels: Levels, node: nat, steps: nat): nat
    requires node <= |levels|
  {
    if steps == 0 || node == 0 then node else Ancestor(levels, Owner(levels, node - 1), steps - 1)
  }

  /** Following owners leads from every segment to the file: containment is a tree with the file as its root. */
  lemma {:induction false} EveryoneUnderTheFile(levels: Levels, node: nat)
    requires node <= |levels|
    ensures Ancestor(levels, node, node) == 0
    decreases node
  {
    if node > 0 {
      var up := Owner(levels, node - 1);
      EveryoneUnderTheFile(levels, up);
      MoreSteps(levels, up, up, node - 1);
    }
  }

  lemma {:induction false} MoreSteps(levels: Levels, node: nat, few: nat, many: nat)
    requires node <= |levels| && few <= many && Ancestor(levels, node, few) == 0
    ensures Ancestor(levels, node, many) == 0
    decreases few
  {
    if node > 0 && few > 0 { MoreSteps(levels, Owner(levels, node - 1), few - 1, many - 1); }
  }
}
