/** SQL's three-valued logic, as far as WHERE clauses use it. */
module SqlLogic {

  datatype Truth = True | False | Unknown

  function Truly(b: bool): Truth { if b then True else False }

  function And(a: Truth, b: Truth): Truth {
    if a == False || b == False then False
    else if a == Unknown || b == Unknown then Unknown
    else True
  }

  function Or(a: Truth, b: Truth): Truth {
    if a == True || b == True then True
    else if a == Unknown || b == Unknown then Unknown
    else False
  }

  /** `t1 AND t2 AND ...`; the empty conjunction is `(1=1)`. */
  function AndAll(ts: seq<Truth>): Truth {
    if ts == [] then True else And(ts[0], AndAll(ts[1..]))
  }

  /** `t1 OR t2 OR ...`; the empty disjunction is `(1=0)`. */
  function OrAny(ts: seq<Truth>): Truth {
    if ts == [] then False else Or(ts[0], OrAny(ts[1..]))
  }

  /** A conjunction depends only on which truth values occur in it. */
  lemma {:induction false} AndAllByMembership(ts: seq<Truth>)
    ensures AndAll(ts) == if False in ts then False else if Unknown in ts then Unknown else True
  {
    if ts != [] {
      AndAllByMembership(ts[1..]);
      assert ts == [ts[0]] + ts[1..];
    }
  }

  /** A disjunction depends only on which truth values occur in it. */
  lemma {:induction false} OrAnyByMembership(ts: seq<Truth>)
    ensures OrAny(ts) == if True in ts then True else if Unknown in ts then Unknown else False
  {
    if ts != [] {
      OrAnyByMembership(ts[1..]);
      assert ts == [ts[0]] + ts[1..];
    }
  }
}
