/**
 Query objects: the occurance of a clause and the clause list of a query change in place.

 `value` is the query an object stands for; `Repr` holds the object and all objects below it.
 */
module QueryObjects {
  import opened Common
  import opened Query

  class QueryNode {
    var occurance: Occurance
    var term: Option<QueryTerm>
    var booleanClauses: seq<QueryNode>
    ghost var value: Query
    ghost var Repr: set<QueryNode>

    ghost predicate Valid()
      reads this, Repr
      decreases Repr
    {
      && this in Repr
      && value.occurance == occurance
      && (booleanClauses == [] ==> value.body == if term.None? then Empty else Term(term.value))
      && (booleanClauses != [] ==> value.body.Clauses? && |value.body.clauses| == |booleanClauses|)
      && (forall i :: 0 <= i < |booleanClauses| ==>
            && booleanClauses[i] in Repr
            && booleanClauses[i].Repr < Repr
            && this !in booleanClauses[i].Repr
            && booleanClauses[i].Valid()
            && booleanClauses[i].value == value.body.clauses[i])
    }

    constructor (occurance: Occurance)
      ensures Valid() && Repr == {this} && value == Query(occurance, Empty)
    {
      this.occurance, this.term, this.booleanClauses := occurance, None, [];
      this.value, this.Repr := Query(occurance, Empty), {this};
    }

    method SetOccurance(o: Occurance)
      requires Valid()
      modifies this`occurance, this`value
      ensures Valid() && value == old(value).(occurance := o)
    {
      occurance := o;
      value := value.(occurance := o);
    }

    method SetTerm(t: QueryTerm)
      requires Valid() && value.body.Empty?
      modifies this`term, this`value
      ensures Valid() && value == old(value).(body := Term(t))
    {
      term := Some(t);
      value := value.(body := Term(t));
    }

    method AddBooleanClause(clause: QueryNode)
      requires Valid() && clause.Valid() && this !in clause.Repr
      modifies this
      ensures Valid() && clause.Valid()
      ensures Repr == old(Repr) + clause.Repr
      ensures value == WithClause(old(value), clause.value)
    {
      if booleanClauses == [] {
        term := None;
      }
      booleanClauses := booleanClauses + [clause];
      value := WithClause(value, clause.value);
      Repr := Repr + clause.Repr;
    }
  }
}
