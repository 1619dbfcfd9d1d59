/**
 * SQL statements as the handlers hand them to the mysql driver: statement
 * text with `?` parameter marks, and the parameter list bound to the marks
 * in order. A statement is kept as its sequence of literal text fragments
 * and marks; its text is the fragments with each mark written as `?`.
 */
module Sql {
  import opened Common
  import opened Text

  datatype Fragment = Literal(text: string) | Mark

  type Statement = seq<Fragment>

  /** The number of parameter marks in a statement. */
  function Marks(st: Statement): nat
    decreases |st|
  {
    if st == [] then 0 else (if st[0].Mark? then 1 else 0) + Marks(st[1..])
  }

  /** The statement text sent to the server. */
  function Render(st: Statement): string
    decreases |st|
  {
    if st == [] then ""
    else (match st[0] case Literal(t) => t case Mark => "?") + Render(st[1..])
  }

  /** Marks of a statement assembled from pieces add up. */
  lemma {:induction false} MarksConcat(a: Statement, b: Statement)
    ensures Marks(a + b) == Marks(a) + Marks(b)
    decreases |a|
  {
    if a == [] {
      assert a + b == b;
    } else {
      assert (a + b)[1..] == a[1..] + b;
      MarksConcat(a[1..], b);
    }
  }

  /** Text fragments are literal SQL: none of them holds a `?` of its own. */
  predicate LiteralText(st: Statement)
  {
    forall i :: 0 <= i < |st| && st[i].Literal? ==> '?' !in st[i].text
  }

  /** A statement assembled from literal pieces is literal. */
  lemma LiteralTextConcat(a: Statement, b: Statement)
    requires LiteralText(a) && LiteralText(b)
    ensures LiteralText(a + b)
  {
    forall i | 0 <= i < |a + b| && (a + b)[i].Literal?
      ensures '?' !in (a + b)[i].text
    {
      if i >= |a| {
        assert (a + b)[i] == b[i - |a|];
      }
    }
  }

  /** The `?` characters of the rendered text are exactly the marks. */
  lemma {:induction false} RenderedPlaceholders(st: Statement)
    requires LiteralText(st)
    ensures Occurrences(Render(st), '?') == Marks(st)
    decreases |st|
  {
    if st != [] {
      RenderedPlaceholders(st[1..]);
      var head := match st[0] case Literal(t) => t case Mark => "?";
      OccurrencesConcat(head, Render(st[1..]), '?');
      if st[0].Mark? {
        assert Occurrences(head, '?') == 1 by { assert head[1..] == []; }
      }
    }
  }

  /** A statement and its parameters, in the order the marks take them. */
  datatype Query = Query(statement: Statement, params: seq<Json>)

  /** Exactly one parameter per mark. */
  predicate WellBound(q: Query)
  {
    Marks(q.statement) == |q.params|
  }

  /**
   * What one request did: the statements it issued, in order, and the
   * response it sent. The database is not modelled: each handler receives
   * the answer to each statement it issues as an input.
   */
  datatype Exchange = Exchange(issued: seq<Query>, response: Response)
}
