// What candidate selection guarantees.
module PlannerSelection {
  import opened Results
  import opened Orders
  import opened Planner
  import opened Bags

  lemma ByScorePreorder()
    ensures TotalPreorder(ByScoreDescending())
  {
  }

  // A winner reaches the thresholds, and every rival is below the ambiguity
  // threshold or strictly lower and not too close.
  ghost predicate Beaten(best: Candidate, rival: Candidate, options: Options) {
    || rival.score < options.ambiguity
    || (rival.score < best.score && !options.tooClose(best.score, rival.score))
  }

  ghost predicate Winner(candidates: multiset<Candidate>, c: Candidate, options: Options) {
    && c in candidates
    && c.score >= options.ambiguity
    && (options.mode == Strict ==> c.score >= options.autoAccept)
    && forall rival :: rival in candidates - multiset{c} ==> Beaten(c, rival, options)
  }

  lemma HeadIsBest(ranked: seq<Candidate>, c: Candidate)
    requires Sorted(ByScoreDescending(), ranked) && c in ranked
    ensures ranked[0].score >= c.score
  {
    var i :| 0 <= i < |ranked| && ranked[i] == c;
    assert i > 0 ==> ByScoreDescending()(ranked[0], ranked[i]) != Greater;
  }

  lemma OtherRemains(candidates: multiset<Candidate>, other: Candidate, c: Candidate)
    requires other in candidates
    ensures other == c || other in candidates - multiset{c}
  {
  }

  lemma WinnerIsHead(ranked: seq<Candidate>, c: Candidate, options: Options)
    requires Sorted(ByScoreDescending(), ranked)
    requires Winner(multiset(ranked), c, options)
    ensures ranked != [] && ranked[0] == c
  {
    assert c in ranked;
    HeadIsBest(ranked, c);
    var head := ranked[0];
    assert head in multiset(ranked);
    OtherRemains(multiset(ranked), head, c);
  }

  lemma WinnerIsMapped(ranked: seq<Candidate>, c: Candidate, options: Options)
    requires Sorted(ByScoreDescending(), ranked)
    requires Winner(multiset(ranked), c, options)
    ensures SelectCandidate(ranked, options) == Mapped(c)
  {
    WinnerIsHead(ranked, c, options);
    assert ranked == [c] + ranked[1..];
    if |ranked| >= 2 {
      var second := ranked[1..][0];
      assert second in multiset(ranked[1..]);
      assert multiset(ranked) == multiset{c} + multiset(ranked[1..]);
      assert Beaten(c, second, options);
    }
  }

  lemma RivalIsBeaten(ranked: seq<Candidate>, options: Options, i: nat)
    requires Sorted(ByScoreDescending(), ranked) && GapTest(options.tooClose)
    requires SelectCandidate(ranked, options).Mapped? && 0 < i < |ranked|
    ensures Beaten(ranked[0], ranked[i], options)
  {
    var best, second, rival := ranked[0], ranked[1], ranked[i];
    assert ByScoreDescending()(best, second) != Greater;
    assert i > 1 ==> ByScoreDescending()(second, rival) != Greater;
    assert rival.score <= second.score <= best.score;
    if rival.score >= options.ambiguity {
      assert !options.tooClose(best.score, second.score);
      assert !options.tooClose(best.score, rival.score);
    }
  }

  lemma RestBag(ranked: seq<Candidate>)
    requires ranked != []
    ensures multiset(ranked) - multiset{ranked[0]} == multiset(ranked[1..])
  {
    assert ranked == [ranked[0]] + ranked[1..];
  }

  lemma RestBeaten(ranked: seq<Candidate>, options: Options, rival: Candidate)
    requires Sorted(ByScoreDescending(), ranked) && GapTest(options.tooClose)
    requires SelectCandidate(ranked, options).Mapped? && rival in ranked[1..]
    ensures Beaten(ranked[0], rival, options)
  {
    var i :| 0 <= i < |ranked[1..]| && ranked[1..][i] == rival;
    RivalIsBeaten(ranked, options, i + 1);
  }

  lemma MappedIsWinner(ranked: seq<Candidate>, options: Options)
    requires Sorted(ByScoreDescending(), ranked) && GapTest(options.tooClose)
    requires SelectCandidate(ranked, options).Mapped?
    ensures Winner(multiset(ranked), SelectCandidate(ranked, options).candidate, options)
  {
    RestBag(ranked);
    forall rival | rival in multiset(ranked) - multiset{ranked[0]} ensures Beaten(ranked[0], rival, options) {
      RestBeaten(ranked, options, rival);
    }
  }

  // Selection is decided by the bag of candidates alone: nothing reaches the
  // threshold, or there is a winner (and only one), or the call is ambiguous.
  lemma SelectionExact(candidates: seq<Candidate>, options: Options)
    requires GapTest(options.tooClose)
    ensures var a := SelectCandidate(StableSort(ByScoreDescending(), candidates), options);
            && (a.Missing? <==> forall c :: c in multiset(candidates) ==> c.score < options.ambiguity)
            && (forall c :: a == Mapped(c) <==> Winner(multiset(candidates), c, options))
            && (a.Ambiguous? ==> multiset(a.candidates) == multiset(candidates))
  {
    var ranked := StableSort(ByScoreDescending(), candidates);
    var a := SelectCandidate(ranked, options);
    ByScorePreorder();
    StableSortCorrect(ByScoreDescending(), candidates);
    forall c ensures a == Mapped(c) <==> Winner(multiset(candidates), c, options) {
      if a == Mapped(c) { MappedIsWinner(ranked, options); }
      if Winner(multiset(candidates), c, options) { WinnerIsMapped(ranked, c, options); }
    }
    if a.Missing? {
      forall c | c in multiset(candidates) ensures c.score < options.ambiguity {
        assert c in multiset(ranked);
        assert c in ranked;
        var i :| 0 <= i < |ranked| && ranked[i] == c;
        assert i > 0 ==> ByScoreDescending()(ranked[0], ranked[i]) != Greater;
      }
    } else {
      assert ranked[0] in multiset(ranked);
    }
  }

  // ---------------------------------------------------------------------
  // Candidates depend on the bag of sources.
  // ---------------------------------------------------------------------

  lemma {:induction false} CandidatesAppend(a: seq<FieldRef>, b: seq<FieldRef>, target: FieldRef, used: seq<string>, mode: Mode)
    ensures Candidates(a + b, target, used, mode) == Candidates(a, target, used, mode) + Candidates(b, target, used, mode)
  {
    if a == [] {
      assert a + b == b;
    } else {
      var rest := a[1..];
      assert (a + b)[0] == a[0] && (a + b)[1..] == rest + b;
      CandidatesAppend(rest, b, target, used, mode);
      ConcatAssoc(CandidateOf(a[0], target, used, mode), Candidates(rest, target, used, mode), Candidates(b, target, used, mode));
    }
  }

  lemma ConcatAssoc(a: seq<Candidate>, b: seq<Candidate>, c: seq<Candidate>)
    ensures a + (b + c) == (a + b) + c
  {
  }

  // One source contributes its own candidates, wherever it stands.
  lemma SplitAround(sources: seq<FieldRef>, i: nat, target: FieldRef, used: seq<string>, mode: Mode)
    requires i < |sources|
    ensures multiset(Candidates(sources, target, used, mode))
         == multiset(CandidateOf(sources[i], target, used, mode)) + multiset(Candidates(sources[..i] + sources[i + 1..], target, used, mode))
  {
    var before, after := sources[..i], sources[i + 1..];
    var mid := [sources[i]] + after;
    CandidatesAppend(before, after, target, used, mode);
    CandidatesAppend(before, mid, target, used, mode);
    CandidatesFirst(sources[i], after, target, used, mode);
    assert sources == before + mid;
    MiddleBag(Candidates(before, target, used, mode), CandidateOf(sources[i], target, used, mode), Candidates(after, target, used, mode));
  }

  lemma CandidatesFirst(first: FieldRef, rest: seq<FieldRef>, target: FieldRef, used: seq<string>, mode: Mode)
    ensures Candidates([first] + rest, target, used, mode) == CandidateOf(first, target, used, mode) + Candidates(rest, target, used, mode)
  {
    assert ([first] + rest)[1..] == rest;
  }

  lemma MiddleBag(before: seq<Candidate>, mid: seq<Candidate>, after: seq<Candidate>)
    ensures multiset(before + (mid + after)) == multiset(mid) + multiset(before + after)
  {
  }

  lemma {:induction false} CandidatesPermute(a: seq<FieldRef>, b: seq<FieldRef>, target: FieldRef, used: seq<string>, mode: Mode)
    requires multiset(a) == multiset(b)
    ensures multiset(Candidates(a, target, used, mode)) == multiset(Candidates(b, target, used, mode))
    decreases |a|
  {
    if a == [] {
      assert |multiset(b)| == 0;
    } else {
      var i := SamePlace(a, b);
      CandidatesPermute(a[1..], b[..i] + b[i + 1..], target, used, mode);
      assert a[..0] + a[1..] == a[1..];
      SplitAround(a, 0, target, used, mode);
      SplitAround(b, i, target, used, mode);
    }
  }

  // The first element of one arrangement, found in another.
  lemma SamePlace(a: seq<FieldRef>, b: seq<FieldRef>) returns (i: nat)
    requires a != [] && multiset(a) == multiset(b)
    ensures i < |b| && b[i] == a[0] && multiset(a[1..]) == multiset(b[..i] + b[i + 1..])
  {
    assert a[0] in multiset(b);
    i :| 0 <= i < |b| && b[i] == a[0];
    RemoveAt(a, 0);
    assert a[..0] + a[1..] == a[1..];
    RemoveAt(b, i);
    SameRest(a[0], multiset(a[1..]), multiset(b[..i] + b[i + 1..]));
  }

  lemma {:induction false} CandidateOrigin(sources: seq<FieldRef>, target: FieldRef, used: seq<string>, mode: Mode, c: Candidate)
    returns (source: FieldRef)
    requires c in Candidates(sources, target, used, mode)
    ensures source in sources && source.path !in used && Score(source, target, mode) == Some(c)
  {
    if c in CandidateOf(sources[0], target, used, mode) {
      source := sources[0];
    } else {
      source := CandidateOrigin(sources[1..], target, used, mode, c);
    }
  }

  // Same bag of sources, same assignment, up to the order in which tied
  // candidates of an ambiguous target are listed.
  ghost predicate SameAssign(a: Assign, b: Assign) {
    match (a, b)
    case (Mapped(c), Mapped(d)) => c == d
    case (Missing, Missing) => true
    case (Ambiguous(cs), Ambiguous(ds)) => multiset(cs) == multiset(ds)
    case _ => false
  }

  lemma AssignOrderIndependent(a: Env, b: Env, target: FieldRef, used: seq<string>)
    requires multiset(a.sources) == multiset(b.sources) && a.options == b.options
    requires GapTest(a.options.tooClose)
    ensures SameAssign(AssignField(a, target, used), AssignField(b, target, used))
  {
    var x := Candidates(a.sources, target, used, a.options.mode);
    var y := Candidates(b.sources, target, used, b.options.mode);
    CandidatesPermute(a.sources, b.sources, target, used, a.options.mode);
    SelectionExact(x, a.options);
    SelectionExact(y, b.options);
  }

  // A mapped target takes an unused source that beats every other unused one.
  lemma MappedDominates(env: Env, target: FieldRef, used: seq<string>) returns (source: FieldRef)
    requires GapTest(env.options.tooClose)
    requires AssignField(env, target, used).Mapped?
    ensures var c := AssignField(env, target, used).candidate;
            && source in env.sources && source.path == c.source && c.source !in used
            && Score(source, target, env.options.mode) == Some(c)
            && c.score >= env.options.ambiguity
            && (env.options.mode == Strict ==> c.score >= env.options.autoAccept)
            && forall other :: other in env.sources && other.path !in used && other != source
                  && Score(other, target, env.options.mode).Some?
                  ==> Beaten(c, Score(other, target, env.options.mode).value, env.options)
  {
    var c := AssignField(env, target, used).candidate;
    var candidates := Candidates(env.sources, target, used, env.options.mode);
    SelectionExact(candidates, env.options);
    assert Winner(multiset(candidates), c, env.options);
    assert c in candidates;
    source := CandidateOrigin(env.sources, target, used, env.options.mode, c);
    var mode := env.options.mode;
    var chosen := source;
    forall other | other in env.sources && other.path !in used && other != source && Score(other, target, mode).Some?
      ensures Beaten(c, Score(other, target, mode).value, env.options)
    {
      TwoCandidates(env.sources, target, used, mode, chosen, other);
      assert Score(other, target, mode).value in multiset(candidates) - multiset{c};
    }
  }

  // Two different scored sources contribute two occurrences.
  lemma TwoCandidates(sources: seq<FieldRef>, target: FieldRef, used: seq<string>, mode: Mode, a: FieldRef, b: FieldRef)
    requires a in sources && b in sources && a != b && a.path !in used && b.path !in used
    requires Score(a, target, mode).Some? && Score(b, target, mode).Some?
    ensures Score(b, target, mode).value in
            multiset(Candidates(sources, target, used, mode)) - multiset{Score(a, target, mode).value}
  {
    var i :| 0 <= i < |sources| && sources[i] == a;
    SplitAround(sources, i, target, used, mode);
    InRest(sources, i, b);
    CandidateIn(sources[..i] + sources[i + 1..], target, used, mode, b);
    SecondRemains(multiset(Candidates(sources[..i] + sources[i + 1..], target, used, mode)),
                  Score(a, target, mode).value, Score(b, target, mode).value);
  }

  lemma InRest(sources: seq<FieldRef>, i: nat, b: FieldRef)
    requires i < |sources| && b in sources && sources[i] != b
    ensures b in sources[..i] + sources[i + 1..]
  {
    var j :| 0 <= j < |sources| && sources[j] == b;
    assert (sources[..i] + sources[i + 1..])[if j < i then j else j - 1] == b;
  }

  lemma SecondRemains(rest: multiset<Candidate>, a: Candidate, b: Candidate)
    requires b in rest
    ensures b in multiset{a} + rest - multiset{a}
  {
  }

  lemma {:induction false} CandidateIn(sources: seq<FieldRef>, target: FieldRef, used: seq<string>, mode: Mode, b: FieldRef)
    requires b in sources && b.path !in used && Score(b, target, mode).Some?
    ensures Score(b, target, mode).value in Candidates(sources, target, used, mode)
  {
    if sources[0] != b {
      CandidateIn(sources[1..], target, used, mode, b);
    }
  }
}
