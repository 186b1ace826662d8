/**
 Card identity. Each card receives a fresh `uuid4()` string when it is
 constructed; the model issues tokens from a counter instead. A source keeps
 the record of the tokens it has issued, and every token it hands out lies
 outside that record, so one source never issues a token twice.
 */
module Identity {

  type Token = nat

  /** The tokens below `n`. */
  ghost function Below(n: nat): (s: set<Token>)
    ensures forall t: Token :: t in s <==> t < n
  {
    if n == 0 then {} else Below(n - 1) + {n - 1}
  }

  /** The supply of identity tokens. `issued` records the tokens handed out
      so far; while `Valid()` holds they are exactly those below `next`. */
  class IdentitySource {
    var next: Token
    ghost var issued: set<Token>

    ghost predicate Valid()
      reads this
    {
      forall t: Token :: t in issued <==> t < next
    }

    constructor ()
      ensures Valid() && issued == {} && next == 0
    {
      next := 0;
      issued := {};
    }

    /** One fresh token, as one `uuid4()` call. */
    method Fresh() returns (t: Token)
      requires Valid()
      modifies this
      ensures Valid()
      ensures t !in old(issued) && issued == old(issued) + {t}
      ensures t == old(next) && next == old(next) + 1
    {
      t := next;
      next := next + 1;
      issued := issued + {t};
    }

    /** `count` fresh tokens `first, first + 1, ...`, as `count` calls. */
    method Issue(count: nat) returns (first: Token)
      requires Valid()
      modifies this
      ensures Valid()
      ensures forall t :: first <= t < first + count ==> t !in old(issued)
      ensures forall t :: t in issued <==> t in old(issued) || first <= t < first + count
      ensures first == old(next) && next == old(next) + count
    {
      first := next;
      next := next + count;
      issued := Below(next);
    }
  }
}
