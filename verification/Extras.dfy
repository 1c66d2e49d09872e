/** The requirement gatherer of pyproject_buildrequires.py: requirements that are inactive
    under the wanted extras are set aside, and a package's references to its own extras
    bring them back. */
module Extras {
  import opened Basics

  /** A requirement: a canonical name, the extras asked for, and perhaps a marker. */
  datatype Requirement = Requirement(name: string, extras: set<string>, marker: Option<string -> bool>)

  /** marker_envs: the values that `extra` takes. */
  function MarkerEnvs(extras: set<string>): set<string> {
    if extras == {} then {""} else extras
  }

  /** No marker, or evaluate_all_environments. */
  predicate Active(r: Requirement, extras: set<string>) {
    r.marker.None? || exists e :: e in MarkerEnvs(extras) && r.marker.value(e)
  }

  /** A reference of the package to itself. */
  predicate Self(r: Requirement, package: Option<string>) {
    package.Some? && package.value != "" && package.value == r.name
  }

  /** A self-reference that asks for extras although none are wanted yet. */
  predicate Trigger(r: Requirement, package: Option<string>) {
    Self(r, package) && Active(r, {}) && r.extras != {}
  }

  ghost function Those(all: multiset<Requirement>): iset<Requirement> {
    iset r: Requirement | r in all
  }

  /** All active self-references are honoured. */
  ghost predicate Closed(extras: set<string>, all: iset<Requirement>, package: Option<string>) {
    forall r :: r in all && Self(r, package) && Active(r, extras) ==> r.extras <= extras
  }

  /** Everything in `extras` is forced by `start` and the self-references. */
  ghost predicate Forced(extras: set<string>, start: set<string>, all: iset<Requirement>, package: Option<string>) {
    forall x: set<string> :: start <= x && Closed(x, all, package) ==> extras <= x
  }

  /** The least closed set from `start` on. */
  ghost predicate Least(extras: set<string>, start: set<string>, all: iset<Requirement>, package: Option<string>) {
    start <= extras && Closed(extras, all, package) && Forced(extras, start, all, package)
  }

  /** The result that is wanted: the least closed extras, what is active under them emitted,
      the rest ignored. */
  ghost predicate Gathered(start: set<string>, all: multiset<Requirement>, package: Option<string>,
                           extras: set<string>, output: multiset<Requirement>, ignored: multiset<Requirement>)
  {
    && Least(extras, start, Those(all), package)
    && forall r :: WantedAt(r, package, extras, all, output, ignored)
  }

  ghost predicate WantedAt(r: Requirement, package: Option<string>, extras: set<string>, all: multiset<Requirement>,
                           output: multiset<Requirement>, ignored: multiset<Requirement>)
  {
    && output[r] == (if Active(r, extras) && !Self(r, package) then all[r] else 0)
    && ignored[r] == (if Active(r, extras) then 0 else all[r])
  }

  // What is computed.  As long as there are no extras, markers are evaluated in the environment of
  // no extras; that environment is lost with the first extra.

  /** The first requirement that brings extras where there were none, or the length of the list. */
  function FirstTrigger(reqs: seq<Requirement>, package: Option<string>): (k: nat)
    ensures k <= |reqs| && (k < |reqs| ==> Trigger(reqs[k], package))
  {
    if reqs == [] then 0
    else
      var n := |reqs| - 1;
      var k := FirstTrigger(reqs[..n], package);
      if k == n && !Trigger(reqs[n], package) then |reqs| else k
  }

  /** The requirements that are active without extras. */
  ghost function Plain(reqs: seq<Requirement>): multiset<Requirement> {
    if reqs == [] then multiset{}
    else
      var n := |reqs| - 1;
      Plain(reqs[..n]) + if Active(reqs[n], {}) then multiset{reqs[n]} else multiset{}
  }

  /** What is decided in the environment of no extras. */
  ghost function Early(start: set<string>, reqs: seq<Requirement>, package: Option<string>): multiset<Requirement> {
    if start != {} then multiset{}
    else
      var k := FirstTrigger(reqs, package);
      Plain(if k < |reqs| then reqs[..k + 1] else reqs)
  }

  /** The first extras. */
  ghost function Base(start: set<string>, reqs: seq<Requirement>, package: Option<string>): set<string> {
    var k := FirstTrigger(reqs, package);
    if start == {} && k < |reqs| then reqs[k].extras else start
  }

  /** The outcome for every list: the least closed extras from the first extras on; what was decided
      early stays decided, everything else is judged under the final extras. */
  ghost predicate Outcome(start: set<string>, reqs: seq<Requirement>, package: Option<string>,
                          extras: set<string>, output: multiset<Requirement>, ignored: multiset<Requirement>)
  {
    var all, early := multiset(reqs), Early(start, reqs, package);
    && Least(extras, Base(start, reqs, package), Those(all), package)
    && forall r :: CountedAt(r, package, extras, all, early, output, ignored)
  }

  ghost predicate AllActive(extras: set<string>, reqs: multiset<Requirement>) {
    forall r :: r in reqs ==> Active(r, extras)
  }

  /** The outcome is the wanted one exactly when what was decided early is active under the final
      extras too and the first extras are in every closed set. */
  lemma {:induction false} GatheredIff(start: set<string>, reqs: seq<Requirement>, package: Option<string>,
                                       extras: set<string>, output: multiset<Requirement>,
                                       ignored: multiset<Requirement>)
    requires Outcome(start, reqs, package, extras, output, ignored)
    ensures Gathered(start, multiset(reqs), package, extras, output, ignored) <==>
            && AllActive(extras, Early(start, reqs, package))
            && Forced(Base(start, reqs, package), start, Those(multiset(reqs)), package)
  {
    var all, early, base := multiset(reqs), Early(start, reqs, package), Base(start, reqs, package);
    assert start <= base;
    if Gathered(start, all, package, extras, output, ignored) {
      forall r | r in early ensures Active(r, extras) {
        assert CountedAt(r, package, extras, all, early, output, ignored);
        assert WantedAt(r, package, extras, all, output, ignored);
      }
    } else if AllActive(extras, early) && Forced(base, start, Those(all), package) {
      forall r: Requirement ensures WantedAt(r, package, extras, all, output, ignored) {
        assert CountedAt(r, package, extras, all, early, output, ignored);
      }
    }
  }

  /** There are extras at the start, or none will ever be added. */
  ghost predicate Steady(start: set<string>, reqs: multiset<Requirement>, package: Option<string>) {
    start != {} || forall r :: r in reqs ==> !Trigger(r, package)
  }

  lemma {:induction false} NoTrigger(reqs: seq<Requirement>, package: Option<string>)
    ensures (forall r :: r in reqs ==> !Trigger(r, package)) <==> FirstTrigger(reqs, package) == |reqs|
  {
    if reqs != [] {
      var n := |reqs| - 1;
      NoTrigger(reqs[..n], package);
      assert forall r :: r in reqs <==> r in reqs[..n] || r == reqs[n];
    }
  }

  lemma {:induction false} PlainActive(reqs: seq<Requirement>)
    ensures AllActive({}, Plain(reqs))
  {
    if reqs != [] {
      PlainActive(reqs[..|reqs| - 1]);
    }
  }

  /** With extras at the start, or if none are ever added, the outcome is the wanted one. */
  lemma {:induction false} SteadyIsGathered(start: set<string>, reqs: seq<Requirement>, package: Option<string>,
                                            extras: set<string>, output: multiset<Requirement>,
                                            ignored: multiset<Requirement>)
    requires Outcome(start, reqs, package, extras, output, ignored) && Steady(start, multiset(reqs), package)
    ensures Gathered(start, multiset(reqs), package, extras, output, ignored)
  {
    GatheredIff(start, reqs, package, extras, output, ignored);
    if start == {} {
      assert forall r :: r in reqs ==> r in multiset(reqs);
      NoTrigger(reqs, package);
      PlainActive(reqs);
      assert Closed({}, Those(multiset(reqs)), package);
    }
  }

  /** The wanted result does not depend on the order of the requirements. */
  lemma {:induction false} OrderIndependent(start: set<string>, reqs: seq<Requirement>, reqs': seq<Requirement>,
                                            package: Option<string>,
                                            extras: set<string>, output: multiset<Requirement>,
                                            ignored: multiset<Requirement>,
                                            extras': set<string>, output': multiset<Requirement>,
                                            ignored': multiset<Requirement>)
    requires multiset(reqs) == multiset(reqs') && Steady(start, multiset(reqs), package)
    requires Outcome(start, reqs, package, extras, output, ignored)
    requires Outcome(start, reqs', package, extras', output', ignored')
    ensures extras == extras' && output == output' && ignored == ignored'
  {
    SteadyIsGathered(start, reqs, package, extras, output, ignored);
    SteadyIsGathered(start, reqs', package, extras', output', ignored');
    assert extras <= extras' && extras' <= extras;
    forall r: Requirement ensures output[r] == output'[r] && ignored[r] == ignored'[r] {
      assert WantedAt(r, package, extras, multiset(reqs), output, ignored);
      assert WantedAt(r, package, extras', multiset(reqs'), output', ignored');
    }
  }

  // The run.

  lemma {:induction false} ActiveGrows(r: Requirement, extras: set<string>, more: set<string>)
    requires extras != {} && extras <= more && Active(r, extras)
    ensures Active(r, more)
  {}

  /** An honoured self-reference adds only what is forced. */
  lemma {:induction false} ForcedGrows(extras: set<string>, base: set<string>, all: iset<Requirement>,
                                       package: Option<string>, r: Requirement)
    requires Forced(extras, base, all, package) && extras != {}
    requires r in all && Self(r, package) && Active(r, extras)
    ensures Forced(extras + r.extras, base, all, package)
  {
    forall x: set<string> | base <= x && Closed(x, all, package) ensures extras + r.extras <= x {
      ActiveGrows(r, extras, x);
    }
  }

  lemma {:induction false} AllActiveGrows(extras: set<string>, more: set<string>, reqs: multiset<Requirement>)
    requires extras != {} && extras <= more && AllActive(extras, reqs)
    ensures AllActive(more, reqs)
  {
    forall r | r in reqs ensures Active(r, more) {
      ActiveGrows(r, extras, more);
    }
  }

  /** What has been done so far: emitted and self-referential requirements, decided without extras
      (`early`) or with some (`late`). */
  ghost predicate Books(extras: set<string>, base: set<string>, all: iset<Requirement>, package: Option<string>,
                        output: multiset<Requirement>, selfs: multiset<Requirement>,
                        early: multiset<Requirement>, late: multiset<Requirement>)
  {
    && base <= extras && Forced(extras, base, all, package) && (extras != {} ==> base != {})
    && (forall r :: r in output ==> !Self(r, package))
    && (forall r :: r in selfs ==> Self(r, package) && r.extras <= extras)
    && output + selfs == early + late
    && AllActive(extras, late) && (extras == {} ==> late == multiset{})
  }

  /** A list with one more requirement. */
  lemma {:induction false} OneMore(reqs: seq<Requirement>, r: Requirement)
    ensures multiset(reqs + [r]) == multiset(reqs) + multiset{r}
  {}

  /** One more requirement is decided, early if there are no extras. */
  ghost function EarlyWith(extras: set<string>, early: multiset<Requirement>, r: Requirement): multiset<Requirement> {
    if extras == {} then early + multiset{r} else early
  }

  ghost function LateWith(extras: set<string>, late: multiset<Requirement>, r: Requirement): multiset<Requirement> {
    if extras == {} then late else late + multiset{r}
  }

  /** An active requirement is decided. */
  lemma {:induction false} BooksDecide(extras: set<string>, base: set<string>, all: iset<Requirement>,
                                       package: Option<string>,
                                       output: multiset<Requirement>, selfs: multiset<Requirement>,
                                       early: multiset<Requirement>, late: multiset<Requirement>, r: Requirement)
    requires Books(extras, base, all, package, output, selfs, early, late) && Active(r, extras)
    ensures !Self(r, package) ==>
              Books(extras, base, all, package, output + multiset{r}, selfs, EarlyWith(extras, early, r),
                  LateWith(extras, late, r))
    ensures Self(r, package) && r.extras <= extras ==>
              Books(extras, base, all, package, output, selfs + multiset{r}, EarlyWith(extras, early, r),
                  LateWith(extras, late, r))
  {
    Shuffle(output, selfs, early, late, r);
  }

  lemma {:induction false} BooksEmit(extras: set<string>, base: set<string>, all: iset<Requirement>,
                                     package: Option<string>, output: seq<Requirement>, selfs: multiset<Requirement>,
                                     early: multiset<Requirement>, late: multiset<Requirement>, r: Requirement)
    requires Books(extras, base, all, package, multiset(output), selfs, early, late)
    requires Active(r, extras) && !Self(r, package)
    ensures Books(extras, base, all, package, multiset(output + [r]), selfs,
                  EarlyWith(extras, early, r), LateWith(extras, late, r))
  {
    BooksDecide(extras, base, all, package, multiset(output), selfs, early, late, r);
    OneMore(output, r);
  }

  lemma {:induction false} Shuffle(output: multiset<Requirement>, selfs: multiset<Requirement>,
                                   early: multiset<Requirement>, late: multiset<Requirement>, r: Requirement)
    requires output + selfs == early + late
    ensures (output + multiset{r}) + selfs == (early + multiset{r}) + late
    ensures (output + multiset{r}) + selfs == early + (late + multiset{r})
    ensures output + (selfs + multiset{r}) == (early + multiset{r}) + late
    ensures output + (selfs + multiset{r}) == early + (late + multiset{r})
  {
    var more := (output + selfs) + multiset{r};
    assert (output + multiset{r}) + selfs == more && output + (selfs + multiset{r}) == more;
    assert (early + multiset{r}) + late == (early + late) + multiset{r};
    assert early + (late + multiset{r}) == (early + late) + multiset{r};
  }

  lemma {:induction false} TotalGrows(extras: set<string>, early: multiset<Requirement>, late: multiset<Requirement>,
                                      ignored: multiset<Requirement>, r: Requirement)
    ensures EarlyWith(extras, early, r) + LateWith(extras, late, r) + ignored == early + late + ignored + multiset{r}
    ensures early + late + (ignored + multiset{r}) == early + late + ignored + multiset{r}
  {}

  /** An active self-reference adds its extras. */
  lemma {:induction false} BooksGrow(extras: set<string>, base: set<string>, all: iset<Requirement>,
                                     package: Option<string>,
                                     output: multiset<Requirement>, selfs: multiset<Requirement>,
                                     early: multiset<Requirement>, late: multiset<Requirement>, r: Requirement)
    requires Books(extras, base, all, package, output, selfs, early, late)
    requires r in all && Active(r, extras) && Self(r, package) && r.extras != {}
    ensures Books(extras + r.extras, if extras == {} then r.extras else base, all, package, output, selfs + multiset{r},
                  EarlyWith(extras, early, r), LateWith(extras, late, r))
  {
    Shuffle(output, selfs, early, late, r);
    if extras == {} {
      assert extras + r.extras == r.extras;
    } else {
      ForcedGrows(extras, base, all, package, r);
      AllActiveGrows(extras, extras + r.extras, late + multiset{r});
    }
  }

  lemma {:induction false} Shrinks(universe: set<string>, extras: set<string>, more: set<string>)
    requires extras < more <= universe
    ensures |universe - more| < |universe - extras|
  {
    var e :| e in more && e !in extras;
    assert universe - more <= universe - extras - {e};
    SubsetSize(universe - more, universe - extras - {e});
  }

  lemma {:induction false} NotMore(universe: set<string>, extras: set<string>, more: set<string>)
    requires extras <= more
    ensures |universe - more| <= |universe - extras|
  {
    SubsetSize(universe - more, universe - extras);
  }

  class Requirements {
    var extras: set<string>
    var output: seq<Requirement>
    var ignored: seq<Requirement>
    /** Self-references handled so far; they leave no other trace. */
    ghost var selfs: multiset<Requirement>
    /** What was decided without extras and with some, and the first extras. */
    ghost var early: multiset<Requirement>
    ghost var late: multiset<Requirement>
    ghost var base: set<string>

    /** No requirement is lost or duplicated. */
    ghost function Total(): multiset<Requirement>
      reads this
    {
      early + late + multiset(ignored)
    }

    ghost predicate Valid(all: iset<Requirement>, package: Option<string>)
      reads this
    {
      && Partial(all, package)
      && (forall r :: r in ignored ==> !Active(r, extras))
    }

    /** The same, with the ignored requirements to be looked at again. */
    ghost predicate Partial(all: iset<Requirement>, package: Option<string>)
      reads this
    {
      && Books(extras, base, all, package, multiset(output), selfs, early, late)
      && (forall r :: r in ignored ==> r in all)
    }

    /** How one more requirement changes what is decided early. */
    ghost predicate EarlyStep(r: Requirement, package: Option<string>, extras0: set<string>,
                              early0: multiset<Requirement>, base0: set<string>)
      reads this
    {
      EarlyBy(r, package, extras0, early0, base0, extras, early, base)
    }

    constructor (start: set<string>)
      ensures extras == base == start && output == [] && ignored == [] && selfs == early == late == multiset{}
    {
      extras, output, ignored, selfs, early, late, base := start, [], [], multiset{}, multiset{}, multiset{}, start;
    }

    /** add. */
    method Add(r: Requirement, package: Option<string>, ghost all: iset<Requirement>, ghost universe: set<string>)
      requires Valid(all, package) && r in all
      requires extras <= universe && forall q :: q in all ==> q.extras <= universe
      modifies this
      ensures Valid(all, package) && old(extras) <= extras <= universe
      ensures Total() == old(Total()) + multiset{r}
      ensures EarlyStep(r, package, old(extras), old(early), old(base))
      decreases |universe - extras|, 2
    {
      if !Active(r, extras) {
        Ignore(r, package, all);
      } else if Self(r, package) {
        Honour(r, package, all, universe);
      } else {
        Emit(r, package, all);
      }
    }

    /** A self-reference asks for extras; it is not a requirement of its own. */
    method Honour(r: Requirement, package: Option<string>, ghost all: iset<Requirement>, ghost universe: set<string>)
      requires Valid(all, package) && r in all && Active(r, extras) && Self(r, package)
      requires extras <= universe && forall q :: q in all ==> q.extras <= universe
      modifies this
      ensures Valid(all, package) && old(extras) <= extras <= universe
      ensures Total() == old(Total()) + multiset{r}
      ensures EarlyStep(r, package, old(extras), old(early), old(base))
      decreases |universe - extras|, 1
    {
      if r.extras != {} && !(r.extras <= extras) {
        WantExtras(r, package, all, universe);
        Readd(package, all, universe);
      } else {
        Drop(r, package, all);
      }
    }

    method Ignore(r: Requirement, package: Option<string>, ghost all: iset<Requirement>)
      requires Valid(all, package) && r in all && !Active(r, extras)
      modifies this`ignored
      ensures Valid(all, package) && Total() == old(Total()) + multiset{r}
      ensures EarlyStep(r, package, old(extras), old(early), old(base))
    {
      OneMore(ignored, r);
      TotalGrows(extras, early, late, multiset(ignored), r);
      ignored := ignored + [r];
    }

    method Emit(r: Requirement, package: Option<string>, ghost all: iset<Requirement>)
      requires Valid(all, package) && Active(r, extras) && !Self(r, package)
      modifies this`output, this`early, this`late
      ensures Valid(all, package) && Total() == old(Total()) + multiset{r}
      ensures EarlyStep(r, package, old(extras), old(early), old(base))
    {
      BooksEmit(extras, base, all, package, output, selfs, early, late, r);
      EarlyDecided(r, package, extras, early, base);
      output := output + [r];
      Decide(r);
    }

    /** Records when a requirement was decided. */
    ghost method Decide(r: Requirement)
      modifies this`early, this`late
      ensures early == EarlyWith(extras, old(early), r) && late == LateWith(extras, old(late), r)
      ensures Total() == old(Total()) + multiset{r}
    {
      TotalGrows(extras, early, late, multiset(ignored), r);
      early, late := EarlyWith(extras, early, r), LateWith(extras, late, r);
    }

    ghost method Drop(r: Requirement, package: Option<string>, all: iset<Requirement>)
      requires Valid(all, package) && Active(r, extras) && Self(r, package) && r.extras <= extras
      modifies this`selfs, this`early, this`late
      ensures Valid(all, package) && Total() == old(Total()) + multiset{r}
      ensures EarlyStep(r, package, old(extras), old(early), old(base))
    {
      BooksDecide(extras, base, all, package, multiset(output), selfs, early, late, r);
      EarlyDecided(r, package, extras, early, base);
      selfs := selfs + multiset{r};
      Decide(r);
    }

    /** Wants the extras of an active self-reference; what was ignored may now be active. */
    method WantExtras(r: Requirement, package: Option<string>, ghost all: iset<Requirement>,
                      ghost universe: set<string>)
      requires Valid(all, package) && r in all && Active(r, extras) && Self(r, package) && !(r.extras <= extras)
      requires extras + r.extras <= universe
      modifies this`extras, this`selfs, this`early, this`late, this`base
      ensures Partial(all, package) && extras == old(extras) + r.extras
      ensures Total() == old(Total()) + multiset{r} && |universe - extras| < old(|universe - extras|)
      ensures EarlyStep(r, package, old(extras), old(early), old(base))
    {
      Shrinks(universe, extras, extras + r.extras);
      Book(r, package, all);
      extras := extras + r.extras;
    }

    /** The books for the extras that are about to be added. */
    ghost method Book(r: Requirement, package: Option<string>, all: iset<Requirement>)
      requires Valid(all, package) && r in all && Active(r, extras) && Self(r, package) && r.extras != {}
      modifies this`selfs, this`early, this`late, this`base
      ensures Books(extras + r.extras, base, all, package, multiset(output), selfs, early, late)
      ensures Total() == old(Total()) + multiset{r}
      ensures base == (if extras == {} then r.extras else old(base))
      ensures early == EarlyWith(extras, old(early), r)
    {
      BooksGrow(extras, base, all, package, multiset(output), selfs, early, late, r);
      base := if extras == {} then r.extras else base;
      selfs := selfs + multiset{r};
      Decide(r);
    }

    /** extend. */
    method Extend(reqs: seq<Requirement>, package: Option<string>, ghost all: iset<Requirement>,
                  ghost universe: set<string>)
      requires Valid(all, package) && forall q :: q in reqs ==> q in all
      requires extras <= universe && forall q :: q in all ==> q.extras <= universe
      modifies this
      ensures Valid(all, package) && old(extras) <= extras <= universe
      ensures Total() == old(Total()) + multiset(reqs)
      ensures EarlyAfter(reqs, package, old(extras), old(early), old(base))
      decreases |universe - extras|, 3
    {
      ghost var extras0, total0, early0, base0 := extras, Total(), early, base;
      GivenEnds(total0, reqs);
      for i := 0 to |reqs|
        invariant Valid(all, package) && extras0 <= extras <= universe
        invariant Total() == Given(total0, reqs, i)
        invariant EarlyAfter(reqs[..i], package, extras0, early0, base0)
      {
        NotMore(universe, extras0, extras);
        ghost var extras1, early1, base1 := extras, early, base;
        Add(reqs[i], package, all, universe);
        Prefix(total0, reqs, i);
        EarlyExtends(reqs, i, package, extras0, early0, base0, extras1, early1, base1, extras, early, base);
      }
    }

    /** How a list changes what is decided early. */
    ghost predicate EarlyAfter(reqs: seq<Requirement>, package: Option<string>, extras0: set<string>,
                               early0: multiset<Requirement>, base0: set<string>)
      reads this
    {
      EarlyIs(reqs, package, extras0, early0, base0, extras, early, base)
    }

    /** readd_ignored_alien_requirements. */
    method Readd(package: Option<string>, ghost all: iset<Requirement>, ghost universe: set<string>)
      requires Partial(all, package) && extras != {}
      requires extras <= universe && forall q :: q in all ==> q.extras <= universe
      modifies this
      ensures Valid(all, package) && old(extras) <= extras <= universe
      ensures Total() == old(Total()) && early == old(early) && base == old(base)
      decreases |universe - extras|, 4
    {
      var requirements := ignored;
      ignored := [];
      Extend(requirements, package, all, universe);
    }
  }

  ghost predicate EarlyBy(r: Requirement, package: Option<string>,
                          extras0: set<string>, early0: multiset<Requirement>, base0: set<string>,
                          extras: set<string>, early: multiset<Requirement>, base: set<string>)
  {
    if extras0 != {} then extras != {} && early == early0 && base == base0
    else
      && early == (if Active(r, {}) then early0 + multiset{r} else early0)
      && (if Trigger(r, package) then extras != {} && base == r.extras else extras == {} && base == base0)
  }

  /** A decision that brings no extras. */
  lemma {:induction false} EarlyDecided(r: Requirement, package: Option<string>, extras: set<string>,
                                        early: multiset<Requirement>, base: set<string>)
    requires Active(r, extras) && (Self(r, package) ==> r.extras <= extras)
    ensures EarlyBy(r, package, extras, early, base, extras, EarlyWith(extras, early, r), base)
  {}

  /** One requirement after a list. */
  lemma {:induction false} EarlyExtends(reqs: seq<Requirement>, i: nat, package: Option<string>,
                                        extras0: set<string>, early0: multiset<Requirement>, base0: set<string>,
                                        extras1: set<string>, early1: multiset<Requirement>, base1: set<string>,
                                        extras: set<string>, early: multiset<Requirement>, base: set<string>)
    requires i < |reqs| && EarlyIs(reqs[..i], package, extras0, early0, base0, extras1, early1, base1)
    requires EarlyBy(reqs[i], package, extras1, early1, base1, extras, early, base)
    ensures EarlyIs(reqs[..i + 1], package, extras0, early0, base0, extras, early, base)
  {
    if extras0 == {} {
      PlainSnoc(reqs, i, early0);
      TriggerSnoc(reqs, i, package);
    }
  }

  lemma {:induction false} TriggerSnoc(reqs: seq<Requirement>, i: nat, package: Option<string>)
    requires i < |reqs|
    ensures var k := FirstTrigger(reqs[..i], package);
            && FirstTrigger(reqs[..i + 1], package) == (if k == i && !Trigger(reqs[i], package) then i + 1 else k)
            && (k < i ==> reqs[..i + 1][..k + 1] == reqs[..i][..k + 1]) && reqs[..i + 1][..i + 1] == reqs[..i + 1]
  {
    assert reqs[..i + 1][..i] == reqs[..i];
  }

  lemma {:induction false} PlainSnoc(reqs: seq<Requirement>, i: nat, early: multiset<Requirement>)
    requires i < |reqs|
    ensures early + Plain(reqs[..i + 1]) ==
            if Active(reqs[i], {}) then early + Plain(reqs[..i]) + multiset{reqs[i]} else early + Plain(reqs[..i])
  {
    assert reqs[..i + 1][..i] == reqs[..i];
  }

  ghost predicate EarlyIs(reqs: seq<Requirement>, package: Option<string>,
                          extras0: set<string>, early0: multiset<Requirement>, base0: set<string>,
                          extras: set<string>, early: multiset<Requirement>, base: set<string>)
  {
    if extras0 != {} then extras != {} && early == early0 && base == base0
    else
      var k := FirstTrigger(reqs, package);
      if k < |reqs| then extras != {} && base == reqs[k].extras && early == early0 + Plain(reqs[..k + 1])
      else extras == {} && base == base0 && early == early0 + Plain(reqs)
  }

  ghost function Given(total: multiset<Requirement>, reqs: seq<Requirement>, i: nat): multiset<Requirement>
    requires i <= |reqs|
  {
    total + multiset(reqs[..i])
  }

  lemma {:induction false} GivenEnds(total: multiset<Requirement>, reqs: seq<Requirement>)
    ensures Given(total, reqs, 0) == total && Given(total, reqs, |reqs|) == total + multiset(reqs)
    ensures reqs[..|reqs|] == reqs
  {
    assert reqs[..|reqs|] == reqs;
  }

  lemma {:induction false} Prefix(total: multiset<Requirement>, reqs: seq<Requirement>, i: nat)
    requires i < |reqs|
    ensures Given(total, reqs, i + 1) == Given(total, reqs, i) + multiset{reqs[i]}
  {
    assert reqs[..i + 1] == reqs[..i] + [reqs[i]];
  }

  ghost function Universe(start: set<string>, reqs: seq<Requirement>): (u: set<string>)
    ensures start <= u && forall q :: q in reqs ==> q.extras <= u
  {
    if reqs == [] then start else Universe(start, reqs[1..]) + reqs[0].extras
  }

  /** Gathering one package's requirements from a set of extras on: the outcome, and when it is the
      wanted one. */
  method Gather(start: set<string>, reqs: seq<Requirement>, package: Option<string>) returns (g: Requirements)
    ensures multiset(reqs) == multiset(g.output) + multiset(g.ignored) + g.selfs
    ensures Outcome(start, reqs, package, g.extras, multiset(g.output), multiset(g.ignored))
    ensures Gathered(start, multiset(reqs), package, g.extras, multiset(g.output), multiset(g.ignored)) <==>
            && AllActive(g.extras, Early(start, reqs, package))
            && Forced(Base(start, reqs, package), start, Those(multiset(reqs)), package)
  {
    g := new Requirements(start);
    g.Extend(reqs, package, Those(multiset(reqs)), Universe(start, reqs));
    Concluded(start, reqs, package, g.extras, g.base, multiset(g.output), multiset(g.ignored), g.selfs, g.early,
        g.late);
    GatheredIff(start, reqs, package, g.extras, multiset(g.output), multiset(g.ignored));
  }

  lemma {:induction false} Concluded(start: set<string>, reqs: seq<Requirement>, package: Option<string>,
                                     extras: set<string>, base: set<string>,
                                     output: multiset<Requirement>, ignored: multiset<Requirement>,
                                     selfs: multiset<Requirement>,
                                     early: multiset<Requirement>, late: multiset<Requirement>)
    requires EarlyIs(reqs, package, start, multiset{}, start, extras, early, base)
    requires Books(extras, base, Those(multiset(reqs)), package, output, selfs, early, late)
    requires early + late + ignored == multiset(reqs) && forall r :: r in ignored ==> !Active(r, extras)
    ensures Outcome(start, reqs, package, extras, output, ignored) && multiset(reqs) == output + ignored + selfs
  {
    assert early == Early(start, reqs, package) && base == Base(start, reqs, package);
    OutcomeOf(start, reqs, package, extras, output, ignored, selfs, late);
  }

  /** The three classes exclude each other, so each requirement is where it belongs as often as it was given. */
  lemma {:induction false} OutcomeOf(start: set<string>, reqs: seq<Requirement>, package: Option<string>,
                                     extras: set<string>,
                                     output: multiset<Requirement>, ignored: multiset<Requirement>,
                                     selfs: multiset<Requirement>,
                                     late: multiset<Requirement>)
    requires Books(extras, Base(start, reqs, package), Those(multiset(reqs)), package, output, selfs,
               Early(start, reqs, package), late)
    requires multiset(reqs) == Early(start, reqs, package) + late + ignored
    requires forall r :: r in ignored ==> !Active(r, extras)
    ensures Outcome(start, reqs, package, extras, output, ignored) && multiset(reqs) == output + ignored + selfs
  {
    var all, early := multiset(reqs), Early(start, reqs, package);
    forall r: Requirement ensures CountedAt(r, package, extras, all, early, output, ignored) {
      CountAt(r, package, extras, all, output, ignored, selfs, early, late);
    }
    assert forall r :: r in Those(all) && Self(r, package) ==> r in selfs || r in ignored;
  }

  ghost predicate CountedAt(r: Requirement, package: Option<string>, extras: set<string>, all: multiset<Requirement>,
                            early: multiset<Requirement>, output: multiset<Requirement>, ignored: multiset<Requirement>)
  {
    && early[r] <= all[r]
    && output[r] == (if Self(r, package) then 0 else early[r] + if Active(r, extras) then all[r] - early[r] else 0)
    && ignored[r] == (if Active(r, extras) then 0 else all[r] - early[r])
  }

  lemma {:induction false} CountAt(r: Requirement, package: Option<string>, extras: set<string>,
                                   all: multiset<Requirement>,
                                   output: multiset<Requirement>, ignored: multiset<Requirement>,
                                   selfs: multiset<Requirement>,
                                   early: multiset<Requirement>, late: multiset<Requirement>)
    requires all == early + late + ignored && output + selfs == early + late
    requires (r in output ==> !Self(r, package)) && (r in selfs ==> Self(r, package))
    requires (r in late ==> Active(r, extras)) && (r in ignored ==> !Active(r, extras))
    ensures CountedAt(r, package, extras, all, early, output, ignored)
  {
    assert (output + selfs)[r] == (early + late)[r];
  }

  // Two lists of the package pkg, gathered without extras.

  /** tomli, with the marker `extra == ''`. */
  function Tomli(): Requirement { Requirement("tomli", {}, Some(e => e == "")) }

  /** pkg[test]. */
  function PkgTest(): Requirement { Requirement("pkg", {"test"}, None) }

  lemma {:induction false} TestExtras(extras: set<string>, all: iset<Requirement>)
    requires Least(extras, {"test"}, all, Some("pkg")) && forall r :: r in all ==> r.extras <= {"test"}
    ensures extras == {"test"}
  {
    assert Closed({"test"}, all, Some("pkg"));
  }

  /** tomli is emitted and then, with the extra `test`, no longer active. */
  lemma {:induction false} LostEnvironment(extras: set<string>, output: multiset<Requirement>,
                                           ignored: multiset<Requirement>)
    requires Outcome({}, [Tomli(), PkgTest()], Some("pkg"), extras, output, ignored)
    ensures extras == {"test"} && output[Tomli()] == 1 && !Active(Tomli(), extras)
    ensures !Gathered({}, multiset([Tomli(), PkgTest()]), Some("pkg"), extras, output, ignored)
  {
    var reqs, package := [Tomli(), PkgTest()], Some("pkg");
    LostList();
    TestExtras(extras, Those(multiset(reqs)));
    assert CountedAt(Tomli(), package, extras, multiset(reqs), Early({}, reqs, package), output, ignored);
    assert !WantedAt(Tomli(), package, extras, multiset(reqs), output, ignored);
  }

  lemma {:induction false} LostList()
    ensures var reqs, package := [Tomli(), PkgTest()], Some("pkg");
            Early({}, reqs, package) == multiset{Tomli(), PkgTest()} && Base({}, reqs, package) == {"test"}
  {
    var reqs, package := [Tomli(), PkgTest()], Some("pkg");
    assert reqs[..1] == [Tomli()] && reqs[..1][..0] == [] && reqs[..2] == reqs;
    assert Tomli().marker.value("") && Active(Tomli(), {});
    assert FirstTrigger(reqs[..1], package) == 1 && FirstTrigger(reqs, package) == 1;
    assert Plain(reqs[..1]) == multiset{Tomli()};
  }

  /** Alone, pkg[test] is gathered as wanted although it brings the first extra. */
  lemma {:induction false} UnsteadyButGathered(extras: set<string>, output: multiset<Requirement>,
                                               ignored: multiset<Requirement>)
    requires Outcome({}, [PkgTest()], Some("pkg"), extras, output, ignored)
    ensures !Steady({}, multiset([PkgTest()]), Some("pkg"))
    ensures Gathered({}, multiset([PkgTest()]), Some("pkg"), extras, output, ignored)
  {
    var reqs := [PkgTest()];
    assert reqs[..0] == [] && reqs[..1] == reqs;
    assert PkgTest() in multiset(reqs) && Trigger(PkgTest(), Some("pkg"));
    TestExtras(extras, Those(multiset(reqs)));
    GatheredIff({}, reqs, Some("pkg"), extras, output, ignored);
  }
}
