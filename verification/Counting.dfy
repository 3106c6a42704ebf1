// How many threads of a protocol are at a program point satisfying a test.

module Counting {
  ghost function At<P(!new)>(threads: map<nat, P>, test: P -> bool): set<nat> {
    set t | t in threads && test(threads[t])
  }

  ghost function Count<P(!new)>(threads: map<nat, P>, test: P -> bool): nat {
    |At(threads, test)|
  }

  ghost function One(b: bool): nat {
    if b then 1 else 0
  }

  /** Moving one thread changes a count by what it leaves and what it enters. */
  lemma CountMove<P(!new)>(threads: map<nat, P>, t: nat, p: P, test: P -> bool)
    ensures Count(threads[t := p], test)
         == Count(threads, test) - One(t in threads && test(threads[t])) + One(test(p))
  {
    var before, after := At(threads, test), At(threads[t := p], test);
    assert after - {t} == before - {t};
    assert t in before ==> |before - {t}| == |before| - 1;
    assert t in after ==> |after - {t}| == |after| - 1;
    assert t !in before ==> before - {t} == before;
    assert t !in after ==> after - {t} == after;
  }

  lemma {:induction false} SubsetSize(a: set<nat>, b: set<nat>)
    requires a <= b
    ensures |a| <= |b|
    ensures |a| == |b| ==> a == b
  {
    if a == {} {
    } else {
      var x :| x in a;
      SubsetSize(a - {x}, b - {x});
    }
  }

  lemma CountSubset<P(!new)>(threads: map<nat, P>, narrow: P -> bool, wide: P -> bool)
    requires forall p :: narrow(p) ==> wide(p)
    ensures Count(threads, narrow) <= Count(threads, wide)
  {
    SubsetSize(At(threads, narrow), At(threads, wide));
  }

  lemma CountZero<P(!new)>(threads: map<nat, P>, test: P -> bool, t: nat)
    requires Count(threads, test) == 0
    requires t in threads
    ensures !test(threads[t])
  {
    assert t !in At(threads, test);
  }
}
