/** How a workflow step's `uses` finds its operation (internal/lathecmd/workflow.go). */
module OperationLookup {
  /** What tells two operations apart. */
  datatype Identity = Identity(operationId: string, httpMethod: string, pathTpl: string, use: string, group: string)

  /** `rest` stands for the fields that the lookup does not look at. */
  datatype Operation<T> = Operation(identity: Identity, rest: T)

  datatype Module<T> = Module(source: string, cliName: string, flat: bool, operations: seq<Operation<T>>)

  /** An operation that answers to a key. */
  datatype Claim<T> = Claim(key: string, operation: Operation<T>)

  datatype Resolution<T> = NotFound | Ambiguous | Found(operation: Operation<T>)

  /** workflowLookupKey and workflowCommandSegment. */
  datatype Naming = Naming(key: string -> string, segment: string -> string)

  // ----- what a list of claims means

  function Claimants<T>(claims: seq<Claim<T>>, key: string): seq<Operation<T>> {
    if claims == [] then []
    else
      var last := claims[|claims| - 1];
      Claimants(claims[..|claims| - 1], key) + (if last.key == key then [last.operation] else [])
  }

  predicate OneOperation<T>(claimants: seq<Operation<T>>) {
    forall i, j :: 0 <= i < |claimants| && 0 <= j < |claimants| ==> claimants[i].identity == claimants[j].identity
  }

  /** A key resolves when exactly one operation claims it. */
  function Resolved<T>(claims: seq<Claim<T>>, key: string): Resolution<T> {
    var claimants := Claimants(claims, key);
    if key == "" || claimants == [] then NotFound
    else if !OneOperation(claimants) then Ambiguous
    else Found(claimants[0])
  }

  // ----- the lookup

  class Lookup<T> {
    const naming: Naming
    var refs: map<string, Operation<T>>
    var ambiguous: set<string>
    ghost var claims: seq<Claim<T>>

    ghost predicate Valid()
      reads this
    {
      forall key :: Holds(key)
    }

    /** The maps agree with the claims on one key. */
    ghost predicate Holds(key: string)
      reads this
    {
      var claimants := Claimants(claims, key);
      && (key in refs <==> key != "" && claimants != [])
      && (key in refs ==> refs[key] == claimants[0])
      && (key in ambiguous <==> key in refs && !OneOperation(claimants))
    }

    constructor (naming: Naming)
      ensures Valid() && this.naming == naming && claims == []
    {
      this.naming := naming;
      refs := map[];
      ambiguous := {};
      claims := [];
    }

    method Add(raw: string, operation: Operation<T>)
      requires Valid()
      modifies this
      ensures Valid() && claims == old(claims) + [Claim(naming.key(raw), operation)]
    {
      var key := naming.key(raw);
      ghost var before := claims;
      claims := claims + [Claim(key, operation)];
      OneMore(Claimants(before, key), operation);
      if key != "" {
        if key !in refs {
          refs := refs[key := operation];
        } else if refs[key].identity != operation.identity {
          ambiguous := ambiguous + {key};
        }
      }
      forall other ensures Holds(other) {
        assert old(Holds(other));
        ClaimantsSnoc(before, Claim(key, operation), other);
      }
    }

    method Resolve(raw: string) returns (resolution: Resolution<T>)
      requires Valid()
      ensures resolution == Resolved(claims, naming.key(raw))
    {
      var key := naming.key(raw);
      assert Holds(key);
      if key in ambiguous {
        return Ambiguous;
      }
      return if key in refs then Found(refs[key]) else NotFound;
    }

    /** The keys of one operation in workflowOperationLookup. */
    method AddOperation(m: Module<T>, operation: Operation<T>)
      requires Valid()
      modifies this
      ensures Valid() && claims == old(claims) + Claimed(naming, KeysOf(naming, m, operation.identity), operation)
    {
      var keys := KeysOf(naming, m, operation.identity);
      ghost var start := claims;
      for i := 0 to |keys|
        invariant Valid() && claims == start + Claimed(naming, keys[..i], operation)
      {
        Add(keys[i], operation);
        assert keys[..i + 1] == keys[..i] + [keys[i]];
      }
      assert keys[..|keys|] == keys;
    }
  }

  lemma ClaimantsSnoc<T>(claims: seq<Claim<T>>, claim: Claim<T>, key: string)
    ensures Claimants(claims + [claim], key)
         == if claim.key == key then Claimants(claims, key) + [claim.operation] else Claimants(claims, key)
  {
    var more := claims + [claim];
    assert more[..|more| - 1] == claims && more[|more| - 1] == claim;
    assert Claimants(claims, key) + [] == Claimants(claims, key);
  }

  lemma OneMore<T>(claimants: seq<Operation<T>>, operation: Operation<T>)
    ensures OneOperation(claimants + [operation])
       <==> claimants == [] || (OneOperation(claimants) && claimants[0].identity == operation.identity)
  {
    var more := claimants + [operation];
    assert more[|claimants|] == operation && forall i :: 0 <= i < |claimants| ==> more[i] == claimants[i];
  }

  /** Every way of naming an operation. */
  function KeysOf<T>(naming: Naming, m: Module<T>, id: Identity): seq<string> {
    var group, use := naming.segment(id.group), naming.segment(id.use);
    (if id.operationId == "" then []
     else [id.operationId, m.source + "." + id.operationId, m.cliName + "." + id.operationId])
    + (if group == "" || use == "" then []
       else [m.source + " " + group + " " + use, m.cliName + " " + group + " " + use,
             m.source + "." + group + "." + use, m.cliName + "." + group + "." + use]
            + if m.flat then [group + " " + use, group + "." + use] else [])
  }

  /** By its id, alone or below one of the names of its module. */
  predicate NamesById<T>(m: Module<T>, id: string, key: string) {
    id != "" && (key == id || key == m.source + "." + id || key == m.cliName + "." + id)
  }

  /** By its group and use, below one of the names of its module or, in a flat one, alone, blanks or dots between. */
  predicate NamesByUse<T>(m: Module<T>, group: string, use: string, key: string) {
    group != "" && use != "" && (
      || (m.flat && (key == group + " " + use || key == group + "." + use))
      || key == m.source + "." + group + "." + use || key == m.source + " " + group + " " + use
      || key == m.cliName + "." + group + "." + use || key == m.cliName + " " + group + " " + use)
  }

  lemma InAppended(a: seq<string>, b: seq<string>, key: string)
    ensures key in a + b <==> key in a || key in b
  {
  }

  /** The keys of an operation are exactly those two kinds of names. */
  lemma KeysMean<T>(naming: Naming, m: Module<T>, id: Identity, key: string)
    ensures key in KeysOf(naming, m, id) <==>
              NamesById(m, id.operationId, key) || NamesByUse(m, naming.segment(id.group), naming.segment(id.use), key)
  {
    var group, use := naming.segment(id.group), naming.segment(id.use);
    var byId := if id.operationId == "" then []
                else [id.operationId, m.source + "." + id.operationId, m.cliName + "." + id.operationId];
    var below := [m.source + " " + group + " " + use, m.cliName + " " + group + " " + use,
                  m.source + "." + group + "." + use, m.cliName + "." + group + "." + use];
    var alone := if m.flat then [group + " " + use, group + "." + use] else [];
    InAppended(below, alone, key);
    InAppended(byId, if group == "" || use == "" then [] else below + alone, key);
  }

  function Claimed<T>(naming: Naming, keys: seq<string>, operation: Operation<T>): (claims: seq<Claim<T>>)
    ensures |claims| == |keys| && forall i :: 0 <= i < |keys| ==> claims[i] == Claim(naming.key(keys[i]), operation)
  {
    seq(|keys|, i requires 0 <= i < |keys| => Claim(naming.key(keys[i]), operation))
  }

  // ----- resolution does not depend on order

  lemma {:induction false} ClaimantsOf<T>(claims: seq<Claim<T>>, key: string, operation: Operation<T>)
    ensures operation in Claimants(claims, key) <==> Claim(key, operation) in claims
  {
    if claims == [] {
    } else {
      var init, last := claims[..|claims| - 1], claims[|claims| - 1];
      ClaimantsOf(init, key, operation);
      assert claims == init + [last];
    }
  }

  /** The claim on the key before which no other is. */
  predicate ClaimsFirst<T>(claims: seq<Claim<T>>, key: string, i: nat) {
    i < |claims| && claims[i].key == key && forall j :: 0 <= j < i ==> claims[j].key != key
  }

  lemma {:induction false} FirstClaimant<T>(claims: seq<Claim<T>>, key: string) returns (i: nat)
    ensures Claimants(claims, key) != [] <==> exists c :: c in claims && c.key == key
    ensures Claimants(claims, key) != [] ==>
      ClaimsFirst(claims, key, i) && Claimants(claims, key)[0] == claims[i].operation
  {
    if claims == [] {
      i := 0;
    } else {
      var init, last := claims[..|claims| - 1], claims[|claims| - 1];
      i := FirstClaimant(init, key);
      assert claims == init + [last];
      if Claimants(init, key) == [] {
        forall j | 0 <= j < |init| ensures init[j].key != key {
          assert init[j] in init;
        }
        i := |init|;
      }
    }
  }

  /** A key is found as its first claim has it, exactly when it is not empty and all its claims are of one
      operation. */
  lemma FoundIff<T>(claims: seq<Claim<T>>, key: string, operation: Operation<T>)
    ensures Resolved(claims, key) == Found(operation) <==>
      && key != ""
      && (exists i: nat :: ClaimsFirst(claims, key, i) && claims[i].operation == operation)
      && forall c :: c in claims && c.key == key ==> c.operation.identity == operation.identity
  {
    var claimants := Claimants(claims, key);
    var first := FirstClaimant(claims, key);
    forall c | c in claims && c.key == key ensures c.operation in claimants {
      ClaimantsOf(claims, key, c.operation);
    }
    forall i | 0 <= i < |claimants| ensures Claim(key, claimants[i]) in claims {
      ClaimantsOf(claims, key, claimants[i]);
    }
    forall i: nat | ClaimsFirst(claims, key, i) ensures claimants != [] && i == first {
      assert claims[i] in claims;
    }
  }

  /** Claims in any order resolve a key alike: not at all, ambiguously, or to the same operation. */
  lemma ResolutionOrderIrrelevant<T>(a: seq<Claim<T>>, b: seq<Claim<T>>, key: string)
    requires multiset(a) == multiset(b)
    ensures Resolved(a, key).NotFound? == Resolved(b, key).NotFound?
    ensures Resolved(a, key).Ambiguous? == Resolved(b, key).Ambiguous?
    ensures Resolved(a, key).Found? ==>
              Resolved(b, key).Found? && Resolved(a, key).operation.identity == Resolved(b, key).operation.identity
  {
    var p, q := Claimants(a, key), Claimants(b, key);
    SameClaimants(a, b, key);
    SameClaimants(b, a, key);
    if OneOperation(p) {
      OneOperationKept(p, q);
    }
    if OneOperation(q) {
      OneOperationKept(q, p);
    }
  }

  lemma SameClaimants<T>(a: seq<Claim<T>>, b: seq<Claim<T>>, key: string)
    requires multiset(a) == multiset(b)
    ensures forall operation :: operation in Claimants(a, key) ==> operation in Claimants(b, key)
  {
    forall operation | operation in Claimants(a, key) ensures operation in Claimants(b, key) {
      ClaimantsOf(a, key, operation);
      ClaimantsOf(b, key, operation);
      assert Claim(key, operation) in multiset(a);
    }
  }

  lemma OneOperationKept<T>(p: seq<Operation<T>>, q: seq<Operation<T>>)
    requires OneOperation(p) && forall operation :: operation in q ==> operation in p
    ensures OneOperation(q)
    ensures q != [] ==> p != [] && p[0].identity == q[0].identity
  {
    forall i, j | 0 <= i < |q| && 0 <= j < |q| ensures q[i].identity == q[j].identity {
      assert q[i] in q && q[j] in q;
    }
    if q != [] {
      assert q[0] in q;
    }
  }

  /** A key resolves exactly when it is not empty and one operation, and only one, claims it. */
  lemma ResolvesIff<T>(claims: seq<Claim<T>>, key: string, id: Identity)
    ensures (Resolved(claims, key).Found? && Resolved(claims, key).operation.identity == id)
       <==> key != "" && (exists c :: c in claims && c.key == key && c.operation.identity == id)
            && (forall c :: c in claims && c.key == key ==> c.operation.identity == id)
  {
    var claimants := Claimants(claims, key);
    forall c | c in claims && c.key == key ensures c.operation in claimants {
      ClaimantsOf(claims, key, c.operation);
    }
    forall i | 0 <= i < |claimants| ensures Claim(key, claimants[i]) in claims {
      ClaimantsOf(claims, key, claimants[i]);
    }
  }
}
