/** Built-in ticket statuses, custom statuses, and which of them are terminal. */
module Statuses {
  import opened Lex
  import opened Results

  datatype Category = Active | Backlog | Done

  function Bytes(s: string): Text
  {
    seq(|s|, i requires 0 <= i < |s| => s[i] as int)
  }

  const TODO: Text := Bytes("todo")

  function Builtin(name: Text): Option<Category>
  {
    if name in {Bytes("draft"), Bytes("triaged"), TODO, Bytes("in-progress"), Bytes("review"), Bytes("blocked")}
      then Some(Active)
    else if name == Bytes("backlog") then Some(Backlog)
    else if name in {Bytes("done"), Bytes("cancelled")} then Some(Done)
    else None
  }

  /** A custom status may not redefine a built-in one. */
  function CategoryOf(name: Text, custom: map<Text, Category>): Option<Category>
  {
    if Builtin(name).Some? then Builtin(name)
    else if name in custom then Some(custom[name])
    else None
  }

  predicate IsKnown(name: Text, custom: map<Text, Category>)
  {
    CategoryOf(name, custom).Some?
  }

  predicate IsTerminal(name: Text, custom: map<Text, Category>)
  {
    CategoryOf(name, custom) == Some(Done)
  }

  /** Only the built-in `todo` can come up as next. */
  predicate IsNextEligible(name: Text)
  {
    name == TODO
  }

  lemma TodoIsNotTerminal(custom: map<Text, Category>)
    ensures !IsTerminal(TODO, custom)
  {
    assert TODO[0] == 't' as int;
  }

  lemma DoneIsTerminal(custom: map<Text, Category>)
    ensures IsTerminal(Bytes("done"), custom)
  {
    var done := Bytes("done");
    assert |done| == 4 && done[0] == 'd' as int && TODO[0] == 't' as int;
    assert |Bytes("draft")| == 5 && |Bytes("triaged")| == 7 && |Bytes("in-progress")| == 11
      && |Bytes("review")| == 6 && |Bytes("blocked")| == 7;
    assert |Bytes("backlog")| == 7;
  }

  /** The names that every scope knows. */
  const BUILTIN: set<Text> := {
    Bytes("draft"), Bytes("triaged"), Bytes("todo"), Bytes("in-progress"), Bytes("review"), Bytes("blocked"),
    Bytes("backlog"), Bytes("done"), Bytes("cancelled")}

  lemma CancelledIsTerminal(custom: map<Text, Category>)
    ensures IsTerminal(Bytes("cancelled"), custom)
  {
    var cancelled := Bytes("cancelled");
    assert |cancelled| == 9 && |Bytes("in-progress")| == 11 && |TODO| == 4 && |Bytes("draft")| == 5;
    assert |Bytes("triaged")| == 7 && |Bytes("review")| == 6 && |Bytes("blocked")| == 7 && |Bytes("backlog")| == 7;
  }

  /** Of the built-in statuses `done` and `cancelled` are terminal, and besides them only custom ones of that category;
      a status is known when it is built in or custom. */
  lemma TerminalExactly(name: Text, custom: map<Text, Category>)
    ensures IsTerminal(name, custom) <==>
              || name == Bytes("done") || name == Bytes("cancelled")
              || (name !in BUILTIN && name in custom && custom[name] == Done)
    ensures IsKnown(name, custom) <==> name in BUILTIN || name in custom
  {
    DoneIsTerminal(custom);
    CancelledIsTerminal(custom);
  }
}
