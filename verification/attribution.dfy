/** Attribute attribution (import-analyzer.py:352-362): candidate `alias.attr` pairs
    recorded in a file are mapped through that file's alias table to the qualified
    name and resolved path they really refer to. */
module Attribution {
  import opened Results
  import opened Syntax
  import opened Imports

  /** An attribute access attributed to the module it was made on. */
  datatype Access = Access(qualified: string, attr: string, path: Option<string>)

  /** A base name the analyzer follows: not one of the conventional `self`/`msg` names,
      and bound by an import in the file. */
  predicate Tracked(base: string, aliases: map<string, Binding>)
  {
    base != "self" && base != "msg" && base in aliases
  }

  /** The access an event stands for, given the alias table. */
  function Attributed(e: Event, aliases: map<string, Binding>): Access
    requires e.AccessEvent? && e.base in aliases
  {
    Access(aliases[e.base].qualified, e.attr, aliases[e.base].path)
  }

  /** The accesses of a file: every recorded `base.attr` whose base is tracked, with the
      base replaced by its binding; every other pair is dropped. */
  function AttributeAccesses(evs: seq<Event>, aliases: map<string, Binding>): (r: set<Access>)
    ensures forall a :: a in r <==>
      exists i :: 0 <= i < |evs| && evs[i].AccessEvent? && Tracked(evs[i].base, aliases) && a == Attributed(evs[i], aliases)
    decreases |evs|
  {
    if evs == [] then {}
    else
      var rest := AttributeAccesses(evs[1..], aliases);
      assert forall i :: 1 <= i < |evs| ==> evs[i] == evs[1..][i - 1];
      var e := evs[0];
      if e.AccessEvent? && Tracked(e.base, aliases) then {Attributed(e, aliases)} + rest else rest
  }
}
