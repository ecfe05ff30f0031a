/** What the closures mean relative to one another: gating against plain
    reachability, and the early-cutoff head-to-head of b4_content_hash_baseline. */
module ConeLaws {
  import opened Collections
  import opened Graphs
  import opened Closures

  // ---- VERIFIED gating ----

  /** A gated path is a path all of whose later nodes are verified. */
  lemma GatedPath(e: Rel, verified: set<Node>, p: seq<Node>)
    ensures IsPath(Gated(e, verified), p) <==> IsPath(e, p) && forall i | 1 <= i < |p| :: p[i] in verified
  {
    if IsPath(Gated(e, verified), p) {
      PathMonotone(Gated(e, verified), e, p);
      forall i | 1 <= i < |p| ensures p[i] in verified {
        assert Linked(Gated(e, verified), p, i - 1);
      }
    }
    if IsPath(e, p) && forall i | 1 <= i < |p| :: p[i] in verified {
      forall i: nat | i + 1 < |p| ensures Linked(Gated(e, verified), p, i) {
        assert Linked(e, p, i);
      }
    }
  }

  lemma ConeMonotone(e: Rel, f: Rel, seed: Node, s: set<Node>, t: set<Node>)
    requires e <= f && IsCone(e, seed, s) && IsCone(f, seed, t)
    ensures s <= t
  {
    forall v | v in s ensures v in t {
      ReachMonotone(e, f, seed, v);
    }
  }

  /** More verified tasks can only enlarge the cone. */
  lemma GatedMonotone(e: Rel, seed: Node, few: set<Node>, many: set<Node>, s: set<Node>, t: set<Node>)
    requires few <= many
    requires IsCone(Gated(e, few), seed, s) && IsCone(Gated(e, many), seed, t)
    ensures s <= t
  {
    ConeMonotone(Gated(e, few), Gated(e, many), seed, s, t);
  }

  /** The gated and the plain reference agree exactly when every dependent of an
      affected task is verified or affected itself; in general the gated one is
      contained in the plain one. */
  lemma GatedVersusPlain(e: Rel, seed: Node, verified: set<Node>, s: set<Node>, t: set<Node>)
    requires IsCone(Gated(e, verified), seed, s) && IsCone(e, seed, t)
    ensures s <= t
    ensures s == t <==> forall u, v | u in s && (u, v) in e :: v in verified || v in s
  {
    ConeMonotone(Gated(e, verified), e, seed, s, t);
    if forall u, v | u in s && (u, v) in e :: v in verified || v in s {
      forall u, v | u in s && (u, v) in e ensures v in s {
        if v in verified {
          assert (u, v) in Gated(e, verified);
          ReachStep(Gated(e, verified), seed, u, v);
        }
      }
      ReachSelf(Gated(e, verified), seed);
      forall v | v in t ensures v in s {
        ClosedReach(e, s, seed, v);
      }
    }
    if s == t {
      forall u, v | u in s && (u, v) in e ensures v in s {
        ReachStep(e, seed, u, v);
      }
    }
  }

  lemma AllVerifiedIsPlain(e: Rel, seed: Node, verified: set<Node>, s: set<Node>, t: set<Node>)
    requires forall p | p in e :: p.1 in verified
    requires IsCone(Gated(e, verified), seed, s) && IsCone(e, seed, t)
    ensures s == t
  {
    assert Gated(e, verified) == e;
    ConeUnique(e, seed, s, t);
  }

  // ---- early cutoff ----

  /** Some edge of the path is in `hidden`. */
  ghost predicate UsesHidden(hidden: Rel, p: seq<Node>)
  {
    exists i: nat | i + 1 < |p| :: Linked(hidden, p, i)
  }

  lemma VisiblePath(actual: Rel, declared: Rel, p: seq<Node>)
    requires declared <= actual
    ensures IsPath(declared, p) <==> IsPath(actual, p) && !UsesHidden(actual - declared, p)
  {
    if IsPath(declared, p) {
      PathMonotone(declared, actual, p);
      forall i: nat | i + 1 < |p| ensures !Linked(actual - declared, p, i) {
        assert Linked(declared, p, i);
      }
    }
    if IsPath(actual, p) && !UsesHidden(actual - declared, p) {
      forall i: nat | i + 1 < |p| ensures Linked(declared, p, i) {
        assert Linked(actual, p, i) && !Linked(actual - declared, p, i);
      }
    }
  }

  /** The hash policy on the declared edges stays within the tasks that truly must
      re-run, and those stay within the plain closure of the real edges. */
  lemma CutoffSandwich(actual: Rel, declared: Rel, root: Node, stable: set<Node>,
                       hash: set<Node>, truth: set<Node>, plain: set<Node>)
    requires declared <= actual
    requires IsCone(Cutoff(declared, root, stable), root, hash)
    requires IsCone(Cutoff(actual, root, stable), root, truth)
    requires IsCone(actual, root, plain)
    ensures hash <= truth <= plain
    ensures declared == actual ==> hash == truth
    ensures stable == {} ==> truth == plain
  {
    ConeMonotone(Cutoff(declared, root, stable), Cutoff(actual, root, stable), root, hash, truth);
    ConeMonotone(Cutoff(actual, root, stable), actual, root, truth, plain);
    if declared == actual {
      ConeUnique(Cutoff(actual, root, stable), root, hash, truth);
    }
    if stable == {} {
      assert Cutoff(actual, root, stable) == actual;
      ConeUnique(actual, root, truth, plain);
    }
  }

  /** A path that cutoff lets through: no stable node is passed on the way,
      the root excepted. */
  lemma CutoffPath(e: Rel, root: Node, stable: set<Node>, p: seq<Node>)
    ensures IsPath(Cutoff(e, root, stable), p)
       <==> IsPath(e, p) && forall i | 0 <= i < |p| - 1 :: p[i] == root || p[i] !in stable
  {
    if IsPath(Cutoff(e, root, stable), p) {
      PathMonotone(Cutoff(e, root, stable), e, p);
      forall i | 0 <= i < |p| - 1 ensures p[i] == root || p[i] !in stable {
        assert Linked(Cutoff(e, root, stable), p, i);
      }
    }
    if IsPath(e, p) && forall i | 0 <= i < |p| - 1 :: p[i] == root || p[i] !in stable {
      forall i: nat | i + 1 < |p| ensures Linked(Cutoff(e, root, stable), p, i) {
        assert Linked(e, p, i);
      }
    }
  }

  /** The hash policy misses a truly affected task exactly when every path along
      which the change really arrives uses an undeclared edge. */
  lemma MissedExactly(actual: Rel, declared: Rel, root: Node, stable: set<Node>,
                      hash: set<Node>, truth: set<Node>, v: Node)
    requires declared <= actual
    requires IsCone(Cutoff(declared, root, stable), root, hash)
    requires IsCone(Cutoff(actual, root, stable), root, truth)
    requires v in truth
    ensures v !in hash
       <==> forall p | Connects(Cutoff(actual, root, stable), p, root, v) :: UsesHidden(actual - declared, p)
  {
    var cutReal, cutDeclared := Cutoff(actual, root, stable), Cutoff(declared, root, stable);
    forall p | Connects(cutReal, p, root, v)
      ensures UsesHidden(actual - declared, p) <==> !Connects(cutDeclared, p, root, v)
    {
      CutoffPath(actual, root, stable, p);
      CutoffPath(declared, root, stable, p);
      VisiblePath(actual, declared, p);
    }
    if v in hash {
      var p :| Connects(cutDeclared, p, root, v);
      PathMonotone(cutDeclared, cutReal, p);
      assert Connects(cutReal, p, root, v);
    } else {
      forall p | Connects(cutReal, p, root, v) ensures UsesHidden(actual - declared, p) {
        assert !Connects(cutDeclared, p, root, v);
      }
    }
  }

  /** Where the plain closure over-invalidates: an affected task is spared by the
      cutoff exactly when every path to it passes a stable task. */
  lemma SparedExactly(actual: Rel, root: Node, stable: set<Node>, truth: set<Node>, plain: set<Node>, v: Node)
    requires IsCone(Cutoff(actual, root, stable), root, truth) && IsCone(actual, root, plain)
    requires v in plain
    ensures v !in truth
       <==> forall p | Connects(actual, p, root, v) :: exists i | 0 <= i < |p| - 1 :: p[i] != root && p[i] in stable
  {
    var cut := Cutoff(actual, root, stable);
    if v in truth {
      var p :| Connects(cut, p, root, v);
      CutoffPath(actual, root, stable, p);
      assert Connects(actual, p, root, v);
    } else {
      forall p | Connects(actual, p, root, v)
        ensures exists i | 0 <= i < |p| - 1 :: p[i] != root && p[i] in stable
      {
        CutoffPath(actual, root, stable, p);
        assert !Connects(cut, p, root, v);
      }
    }
  }
}
