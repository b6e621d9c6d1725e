/** An abstract model of what `difflib.unified_diff(a, b)` returns for two
    lists of strings. The matching algorithm that chooses how `a` becomes
    `b` is not modelled: an edit script stands for its choice, and the lines
    handed back are header lines (`--- `, `+++ `, `@@ ... @@`, each ending in
    a newline) and content lines (a one-character tag before an element of
    `a` or `b`, with no newline of their own). */
module Difflib {

  /** One step of an edit script turning a list `a` into a list `b`. */
  datatype Edit = Keep(elem: string) | Insert(elem: string) | Delete(elem: string)

  /** The list the script reads: its kept and deleted elements, in order. */
  function Source(es: seq<Edit>): seq<string> {
    if es == [] then []
    else
      var e := es[|es| - 1];
      Source(es[..|es| - 1]) + (if e.Insert? then [] else [e.elem])
  }

  /** The list the script produces: its kept and inserted elements, in order. */
  function Target(es: seq<Edit>): seq<string> {
    if es == [] then []
    else
      var e := es[|es| - 1];
      Target(es[..|es| - 1]) + (if e.Delete? then [] else [e.elem])
  }

  /** `es` turns `a` into `b`. */
  predicate IsEditScript(es: seq<Edit>, a: seq<string>, b: seq<string>) {
    Source(es) == a && Target(es) == b
  }

  /** The inserted elements, in script order. */
  function Inserted(es: seq<Edit>): seq<string> {
    if es == [] then []
    else
      var e := es[|es| - 1];
      Inserted(es[..|es| - 1]) + (if e.Insert? then [e.elem] else [])
  }

  /** The deleted elements, in script order. */
  function Deleted(es: seq<Edit>): seq<string> {
    if es == [] then []
    else
      var e := es[|es| - 1];
      Deleted(es[..|es| - 1]) + (if e.Delete? then [e.elem] else [])
  }

  /** The four projections of a script extended by one step. */
  lemma ScriptSnoc(es: seq<Edit>, e: Edit)
    ensures Source(es + [e]) == Source(es) + (if e.Insert? then [] else [e.elem])
    ensures Target(es + [e]) == Target(es) + (if e.Delete? then [] else [e.elem])
    ensures Inserted(es + [e]) == Inserted(es) + (if e.Insert? then [e.elem] else [])
    ensures Deleted(es + [e]) == Deleted(es) + (if e.Delete? then [e.elem] else [])
  {
    assert (es + [e])[..|es|] == es;
  }

  /** The projections of a one-step script. */
  lemma OneStep(e: Edit)
    ensures Source([e]) == (if e.Insert? then [] else [e.elem])
    ensures Target([e]) == (if e.Delete? then [] else [e.elem])
    ensures Inserted([e]) == (if e.Insert? then [e.elem] else [])
    ensures Deleted([e]) == (if e.Delete? then [e.elem] else [])
  {
    assert [e][..0] == [];
  }

  /** The list read by two scripts run one after the other. */
  lemma {:induction false} SourceConcat(a: seq<Edit>, b: seq<Edit>)
    ensures Source(a + b) == Source(a) + Source(b)
  {
    if b == [] {
      assert a + b == a;
    } else {
      var init := b[..|b| - 1];
      SourceConcat(a, init);
      assert (a + b)[..|a + b| - 1] == a + init;
      assert (a + b)[|a + b| - 1] == b[|b| - 1];
    }
  }

  /** The list produced by two scripts run one after the other. */
  lemma {:induction false} TargetConcat(a: seq<Edit>, b: seq<Edit>)
    ensures Target(a + b) == Target(a) + Target(b)
  {
    if b == [] {
      assert a + b == a;
    } else {
      var init := b[..|b| - 1];
      TargetConcat(a, init);
      assert (a + b)[..|a + b| - 1] == a + init;
      assert (a + b)[|a + b| - 1] == b[|b| - 1];
    }
  }

  /** The list inserted by two scripts run one after the other. */
  lemma {:induction false} InsertedConcat(a: seq<Edit>, b: seq<Edit>)
    ensures Inserted(a + b) == Inserted(a) + Inserted(b)
  {
    if b == [] {
      assert a + b == a;
    } else {
      var init := b[..|b| - 1];
      InsertedConcat(a, init);
      assert (a + b)[..|a + b| - 1] == a + init;
      assert (a + b)[|a + b| - 1] == b[|b| - 1];
    }
  }

  /** The list deleted by two scripts run one after the other. */
  lemma {:induction false} DeletedConcat(a: seq<Edit>, b: seq<Edit>)
    ensures Deleted(a + b) == Deleted(a) + Deleted(b)
  {
    if b == [] {
      assert a + b == a;
    } else {
      var init := b[..|b| - 1];
      DeletedConcat(a, init);
      assert (a + b)[..|a + b| - 1] == a + init;
      assert (a + b)[|a + b| - 1] == b[|b| - 1];
    }
  }

  /** Every inserted element is an occurrence in the target list. */
  lemma {:induction false} InsertedFromTarget(es: seq<Edit>)
    ensures multiset(Inserted(es)) <= multiset(Target(es))
  {
    if es != [] {
      InsertedFromTarget(es[..|es| - 1]);
    }
  }

  /** Every deleted element is an occurrence in the source list. */
  lemma {:induction false} DeletedFromSource(es: seq<Edit>)
    ensures multiset(Deleted(es)) <= multiset(Source(es))
  {
    if es != [] {
      DeletedFromSource(es[..|es| - 1]);
    }
  }

  /** An element of the target that the source lacks must have been inserted. */
  lemma {:induction false} NewElementsInserted(es: seq<Edit>, x: string)
    requires x in Target(es) && x !in Source(es)
    ensures x in Inserted(es)
  {
    var init := es[..|es| - 1];
    var e := es[|es| - 1];
    assert Source(init) <= Source(es);
    if x in Target(init) {
      NewElementsInserted(init, x);
    } else {
      assert e == Insert(x);
    }
  }

  /** An element of the source that the target lacks must have been deleted. */
  lemma {:induction false} VanishedElementsDeleted(es: seq<Edit>, x: string)
    requires x in Source(es) && x !in Target(es)
    ensures x in Deleted(es)
  {
    var init := es[..|es| - 1];
    var e := es[|es| - 1];
    assert Target(init) <= Target(es);
    if x in Source(init) {
      VanishedElementsDeleted(init, x);
    } else {
      assert e == Delete(x);
    }
  }

  /** A script with no insertion and no deletion changes nothing; so any
      script between two different lists has at least one of them. */
  lemma {:induction false} NoChangesSameLists(es: seq<Edit>)
    requires Inserted(es) == [] && Deleted(es) == []
    ensures Source(es) == Target(es)
  {
    if es != [] {
      var init := es[..|es| - 1];
      assert Inserted(init) <= Inserted(es) && Deleted(init) <= Deleted(es);
      NoChangesSameLists(init);
    }
  }

  /** A line handed back by `unified_diff`. */
  datatype DiffLine = Header(text: string) | Content(edit: Edit)

  /** The text of a line: a header ends in "\n"; a content line is its tag
      (' ' kept, '+' inserted, '-' deleted) followed by the element. */
  function Render(l: DiffLine): string {
    match l
    case Header(t) => t + "\n"
    case Content(Keep(x)) => " " + x
    case Content(Insert(x)) => "+" + x
    case Content(Delete(x)) => "-" + x
  }

  function RenderAll(ls: seq<DiffLine>): seq<string> {
    seq(|ls|, k requires 0 <= k < |ls| => Render(ls[k]))
  }

  /** The edits shown by the content lines, in order. */
  function Edits(ls: seq<DiffLine>): seq<Edit> {
    if ls == [] then []
    else
      var l := ls[|ls| - 1];
      Edits(ls[..|ls| - 1]) + (if l.Content? then [l.edit] else [])
  }

  lemma EditsSnoc(ls: seq<DiffLine>, l: DiffLine)
    ensures Edits(ls + [l]) == Edits(ls) + (if l.Content? then [l.edit] else [])
  {
    assert (ls + [l])[..|ls|] == ls;
  }

  /** `ls` is a unified diff of the script `es`: its content lines show every
      insertion and every deletion of `es`, each kind in script order; the
      headers and the kept context around the changes may be placed and
      trimmed as `difflib` chooses. */
  predicate ShowsChanges(ls: seq<DiffLine>, es: seq<Edit>) {
    Inserted(Edits(ls)) == Inserted(es) && Deleted(Edits(ls)) == Deleted(es)
  }
}
