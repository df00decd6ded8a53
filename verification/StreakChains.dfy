/** The streak rule over calendar stamps: chains of days, and passes of which each month has one. */
module StreakChains {
  import opened Prelude

  /** A day number and the number of its month. */
  datatype Stamp = Stamp(day: int, month: int)

  /** A later day never lies in an earlier month. */
  predicate InOrder(a: Stamp, b: Stamp) {
    a.day <= b.day ==> a.month <= b.month
  }

  /** The stored figures; only the last pass is remembered. */
  datatype Figures = Figures(current: nat, longest: nat, last: Stamp, lastPass: Option<Stamp>)

  function Advance(f: Figures, now: Stamp): Figures {
    var gap := now.day - f.last.day;
    if gap <= 0 then f
    else
      var grace := gap == 2 && !(f.lastPass.Some? && f.lastPass.value.month == now.month);
      var current := if gap == 1 || grace then f.current + 1 else 1;
      Figures(current, Max(current, f.longest), now, if grace then Some(now) else f.lastPass)
  }

  function First(now: Stamp): Figures {
    Figures(1, 1, now, None)
  }

  // ---- reference: the whole history ---------------------------------------------------------------------

  /** A counted visit; `grace` says that the day before it was missed and forgiven. */
  datatype Visit = Visit(at: Stamp, grace: bool)

  type Chain = seq<Visit>

  /** All chains of a user so far, and the stamps at which a pass was used. */
  datatype History = History(chains: seq<Chain>, passes: seq<Stamp>)

  /** Some pass was ever used in the month of `now`. */
  predicate PassSpent(passes: seq<Stamp>, now: Stamp) {
    exists i :: 0 <= i < |passes| && passes[i].month == now.month
  }

  predicate NonEmpty(h: History) {
    |h.chains| > 0 && forall i :: 0 <= i < |h.chains| ==> |h.chains[i]| > 0
  }

  function LastChain(h: History): Chain
    requires |h.chains| > 0
  {
    h.chains[|h.chains| - 1]
  }

  function LastVisit(h: History): Visit
    requires NonEmpty(h)
  {
    LastChain(h)[|LastChain(h)| - 1]
  }

  function Grow(h: History, v: Visit): History
    requires |h.chains| > 0
  {
    h.(chains := h.chains[|h.chains| - 1 := LastChain(h) + [v]])
  }

  /** The rule in terms of the whole history of passes. */
  function Extend(h: History, now: Stamp): (t: History)
    requires NonEmpty(h)
    ensures NonEmpty(t)
  {
    var gap := now.day - LastVisit(h).at.day;
    if gap <= 0 then h
    else if gap == 1 then Grow(h, Visit(now, false))
    else if gap == 2 && !PassSpent(h.passes, now) then Grow(h, Visit(now, true)).(passes := h.passes + [now])
    else h.(chains := h.chains + [[Visit(now, false)]])
  }

  function Passes(chain: Chain): nat {
    if chain == [] then 0 else Passes(chain[..|chain| - 1]) + if chain[|chain| - 1].grace then 1 else 0
  }

  function Longest(chains: seq<Chain>): nat {
    if chains == [] then 0 else Max(Longest(chains[..|chains| - 1]), |chains[|chains| - 1]|)
  }

  // ---- invariant ----------------------------------------------------------------------------------------

  /** Consecutive visits of a chain are one day apart, or two with a pass. */
  ghost predicate ChainOk(chain: Chain) {
    && chain != [] && !chain[0].grace
    && forall i :: 0 < i < |chain| ==> chain[i].at.day - chain[i - 1].at.day == if chain[i].grace then 2 else 1
  }

  ghost predicate ChainsOk(h: History) {
    |h.chains| > 0 && forall i :: 0 <= i < |h.chains| ==> ChainOk(h.chains[i])
  }

  /** Passes are used on later days and in later months, one after the other. */
  ghost predicate PassesOk(passes: seq<Stamp>) {
    forall i, j :: 0 <= i < j < |passes| ==> passes[i].day < passes[j].day && passes[i].month < passes[j].month
  }

  ghost predicate Mirrors(f: Figures, h: History) {
    && ChainsOk(h) && PassesOk(h.passes)
    && f.current == |LastChain(h)| && f.longest == Longest(h.chains) && f.last == LastVisit(h).at
    && f.lastPass == (if h.passes == [] then None else Some(h.passes[|h.passes| - 1]))
    && (h.passes != [] ==> h.passes[|h.passes| - 1].day <= f.last.day)
  }

  /** Remembering only the last pass decides whether any pass was used this month. */
  lemma LastPassSuffices(passes: seq<Stamp>, now: Stamp)
    requires PassesOk(passes) && passes != []
    requires InOrder(passes[|passes| - 1], now) && passes[|passes| - 1].day <= now.day
    ensures passes[|passes| - 1].month == now.month <==> PassSpent(passes, now)
  {
  }

  lemma LongestGrown(chains: seq<Chain>, v: Visit)
    requires chains != []
    ensures var last := chains[|chains| - 1];
      Longest(chains[|chains| - 1 := last + [v]]) == Max(|last| + 1, Longest(chains))
  {
    var last := chains[|chains| - 1];
    assert chains[|chains| - 1 := last + [v]][..|chains| - 1] == chains[..|chains| - 1];
  }

  lemma GrowOk(h: History, v: Visit)
    requires ChainsOk(h) && v.at.day - LastVisit(h).at.day == if v.grace then 2 else 1
    ensures ChainsOk(Grow(h, v)) && LastChain(Grow(h, v)) == LastChain(h) + [v]
    ensures Longest(Grow(h, v).chains) == Max(|LastChain(h)| + 1, Longest(h.chains))
  {
    LongestGrown(h.chains, v);
    var t := Grow(h, v);
    forall i | 0 <= i < |t.chains| ensures ChainOk(t.chains[i]) {
      assert ChainOk(h.chains[i]);
    }
  }

  lemma ChainAppended(h: History, now: Stamp)
    requires ChainsOk(h)
    ensures var t := h.(chains := h.chains + [[Visit(now, false)]]);
      ChainsOk(t) && LastChain(t) == [Visit(now, false)] && Longest(t.chains) == Max(1, Longest(h.chains))
  {
    var t := h.(chains := h.chains + [[Visit(now, false)]]);
    assert t.chains[..|h.chains|] == h.chains;
    forall i | 0 <= i < |t.chains| ensures ChainOk(t.chains[i]) {
      if i < |h.chains| { assert ChainOk(h.chains[i]); }
    }
  }

  lemma PassAppended(passes: seq<Stamp>, now: Stamp, last: int)
    requires PassesOk(passes) && !PassSpent(passes, now) && last < now.day
    requires passes != [] ==> passes[|passes| - 1].day <= last && InOrder(passes[|passes| - 1], now)
    ensures PassesOk(passes + [now])
  {
    if passes != [] { LastPassSuffices(passes, now); }
  }

  lemma NextDayMirrors(f: Figures, h: History, now: Stamp)
    requires Mirrors(f, h) && now.day - f.last.day == 1
    ensures Mirrors(Advance(f, now), Extend(h, now)) && Extend(h, now).passes == h.passes
  {
    GrowOk(h, Visit(now, false));
  }

  /** What the row remembers decides whether a pass is left. */
  lemma PassKnown(f: Figures, h: History, now: Stamp)
    requires Mirrors(f, h) && now.day > f.last.day && (h.passes != [] ==> InOrder(h.passes[|h.passes| - 1], now))
    ensures PassSpent(h.passes, now) <==> f.lastPass.Some? && f.lastPass.value.month == now.month
  {
    if h.passes != [] { LastPassSuffices(h.passes, now); }
  }

  lemma GraceMirrors(f: Figures, h: History, now: Stamp)
    requires Mirrors(f, h) && now.day - f.last.day == 2 && (h.passes != [] ==> InOrder(h.passes[|h.passes| - 1], now))
    requires !PassSpent(h.passes, now) && !(f.lastPass.Some? && f.lastPass.value.month == now.month)
    ensures Mirrors(Advance(f, now), Extend(h, now)) && Extend(h, now).passes == h.passes + [now]
  {
    GrowOk(h, Visit(now, true));
    PassAppended(h.passes, now, f.last.day);
  }

  lemma BreakMirrors(f: Figures, h: History, now: Stamp)
    requires Mirrors(f, h) && now.day - f.last.day >= 2
    requires PassSpent(h.passes, now) <==> f.lastPass.Some? && f.lastPass.value.month == now.month
    requires now.day - f.last.day == 2 ==> PassSpent(h.passes, now)
    ensures Mirrors(Advance(f, now), Extend(h, now)) && Extend(h, now).passes == h.passes
  {
    ChainAppended(h, now);
  }

  /**
   * The figures follow the history: what the row computes from the last pass is what the rule says about all passes.
   */
  lemma AdvanceMirrors(f: Figures, h: History, now: Stamp)
    requires Mirrors(f, h) && (h.passes != [] ==> InOrder(h.passes[|h.passes| - 1], now))
    ensures Mirrors(Advance(f, now), Extend(h, now))
    ensures forall p :: p in Extend(h, now).passes ==> p in h.passes || p == now
  {
    var gap := now.day - f.last.day;
    if gap == 1 {
      NextDayMirrors(f, h, now);
    } else if gap > 1 {
      PassKnown(f, h, now);
      if gap == 2 && !PassSpent(h.passes, now) { GraceMirrors(f, h, now); } else { BreakMirrors(f, h, now); }
    }
  }

  // ---- chains break only when they must -------------------------------------------------------------------

  /** The first visit of chain `i + 1` came too late for chain `i`: two days or more, and no pass was left for two. */
  ghost predicate BreakForced(h: History, i: nat)
    requires NonEmpty(h) && i + 1 < |h.chains|
  {
    var before, after := h.chains[i][|h.chains[i]| - 1].at, h.chains[i + 1][0].at;
    && after.day - before.day >= 2
    && (after.day - before.day == 2 ==> exists p :: p in h.passes && p.day <= before.day && p.month == after.month)
  }

  ghost predicate BreaksForced(h: History) {
    NonEmpty(h) && forall i :: 0 <= i < |h.chains| - 1 ==> BreakForced(h, i)
  }

  /** The visit is one of a chain's. */
  ghost predicate Visited(h: History, v: Visit) {
    exists i :: 0 <= i < |h.chains| && v in h.chains[i]
  }

  /** A pass is used for every forgiven visit, and for nothing else. */
  ghost predicate PassesAreGraces(h: History) {
    forall at: Stamp :: at in h.passes <==> Visited(h, Visit(at, true))
  }

  lemma GrowVisits(h: History, v: Visit, x: Visit)
    requires NonEmpty(h)
    ensures Visited(Grow(h, v), x) <==> Visited(h, x) || x == v
  {
    var t, k := Grow(h, v), |h.chains| - 1;
    assert t.chains[k] == h.chains[k] + [v];
    if Visited(h, x) {
      var i :| 0 <= i < |h.chains| && x in h.chains[i];
      assert x in t.chains[i];
    }
    if x == v { assert x in t.chains[k]; }
  }

  lemma ChainVisits(h: History, v: Visit, x: Visit)
    requires NonEmpty(h)
    ensures Visited(h.(chains := h.chains + [[v]]), x) <==> Visited(h, x) || x == v
  {
    var t := h.(chains := h.chains + [[v]]);
    if Visited(h, x) {
      var i :| 0 <= i < |h.chains| && x in h.chains[i];
      assert t.chains[i] == h.chains[i];
    }
    if x == v { assert x in t.chains[|h.chains|]; }
  }

  lemma ExtendPasses(h: History, now: Stamp)
    requires NonEmpty(h) && PassesAreGraces(h)
    ensures PassesAreGraces(Extend(h, now))
  {
    forall at: Stamp ensures at in Extend(h, now).passes <==> Visited(Extend(h, now), Visit(at, true)) {
      GrowVisits(h, Visit(now, false), Visit(at, true));
      GrowVisits(h, Visit(now, true), Visit(at, true));
      ChainVisits(h, Visit(now, false), Visit(at, true));
      assert forall t: History, u: History :: t.chains == u.chains ==>
        (Visited(t, Visit(at, true)) <==> Visited(u, Visit(at, true)));
    }
  }

  lemma GrowBreaks(h: History, v: Visit, passes: seq<Stamp>)
    requires BreaksForced(h) && h.passes <= passes
    ensures BreaksForced(Grow(h, v).(passes := passes))
  {
    var t := Grow(h, v).(passes := passes);
    forall i | 0 <= i < |t.chains| - 1 ensures BreakForced(t, i) {
      assert BreakForced(h, i);
      assert t.chains[i] == h.chains[i] && t.chains[i + 1][0] == h.chains[i + 1][0];
    }
  }

  lemma NewChainBreaks(h: History, now: Stamp)
    requires BreaksForced(h) && now.day - LastVisit(h).at.day >= 2
    requires now.day - LastVisit(h).at.day == 2 ==> PassSpent(h.passes, now)
    requires forall p :: p in h.passes ==> p.day <= LastVisit(h).at.day
    ensures BreaksForced(h.(chains := h.chains + [[Visit(now, false)]]))
  {
    var t := h.(chains := h.chains + [[Visit(now, false)]]);
    forall i | 0 <= i < |t.chains| - 1 ensures BreakForced(t, i) {
      assert t.chains[i] == h.chains[i];
      if i + 1 < |h.chains| {
        assert BreakForced(h, i);
        assert t.chains[i + 1] == h.chains[i + 1];
      } else if PassSpent(h.passes, now) {
        var k :| 0 <= k < |h.passes| && h.passes[k].month == now.month;
        assert h.passes[k] in h.passes;
      }
    }
  }

  lemma ExtendBreaks(h: History, now: Stamp)
    requires BreaksForced(h) && forall p :: p in h.passes ==> p.day <= LastVisit(h).at.day
    ensures BreaksForced(Extend(h, now))
    ensures forall p :: p in Extend(h, now).passes ==> p.day <= LastVisit(Extend(h, now)).at.day
    ensures LastVisit(Extend(h, now)).at == if now.day > LastVisit(h).at.day then now else LastVisit(h).at
  {
    var gap := now.day - LastVisit(h).at.day;
    if gap == 1 {
      GrowBreaks(h, Visit(now, false), h.passes);
    } else if gap == 2 && !PassSpent(h.passes, now) {
      GrowBreaks(h, Visit(now, true), h.passes + [now]);
    } else if gap > 0 {
      NewChainBreaks(h, now);
    }
  }

  // ---- runs -----------------------------------------------------------------------------------------------

  function FiguresAfter(stamps: seq<Stamp>): Figures
    requires stamps != []
  {
    if |stamps| == 1 then First(stamps[0]) else Advance(FiguresAfter(stamps[..|stamps| - 1]), stamps[|stamps| - 1])
  }

  function HistoryAfter(stamps: seq<Stamp>): (h: History)
    requires stamps != []
    ensures NonEmpty(h)
  {
    if |stamps| == 1 then History([[Visit(stamps[0], false)]], [])
    else Extend(HistoryAfter(stamps[..|stamps| - 1]), stamps[|stamps| - 1])
  }

  ghost predicate AllInOrder(stamps: seq<Stamp>) {
    forall i, j :: 0 <= i < |stamps| && 0 <= j < |stamps| ==> InOrder(stamps[i], stamps[j])
  }

  lemma {:induction false} FiguresMirrorHistory(stamps: seq<Stamp>)
    requires stamps != [] && AllInOrder(stamps)
    ensures Mirrors(FiguresAfter(stamps), HistoryAfter(stamps))
    ensures forall p :: p in HistoryAfter(stamps).passes ==> p in stamps
  {
    if |stamps| == 1 {
      var h := HistoryAfter(stamps);
      assert h.chains[..0] == [];
      assert ChainOk(h.chains[0]);
    } else {
      var init, now := stamps[..|stamps| - 1], stamps[|stamps| - 1];
      FiguresMirrorHistory(init);
      var h := HistoryAfter(init);
      if h.passes != [] { assert h.passes[|h.passes| - 1] in init; }
      AdvanceMirrors(FiguresAfter(init), h, now);
    }
  }

  /** The history of a run: no chain breaks early, every pass forgives a visit, and the last visit is the latest day. */
  lemma {:induction false} HistoryIsForced(stamps: seq<Stamp>)
    requires stamps != []
    ensures var h := HistoryAfter(stamps);
      && BreaksForced(h) && PassesAreGraces(h)
      && (forall p :: p in h.passes ==> p.day <= LastVisit(h).at.day)
      && LastVisit(h).at in stamps && forall s :: s in stamps ==> s.day <= LastVisit(h).at.day
  {
    var h := HistoryAfter(stamps);
    if |stamps| == 1 {
      assert stamps[0] in stamps;
      forall at: Stamp ensures at in h.passes <==> Visited(h, Visit(at, true)) {}
    } else {
      var init, now := stamps[..|stamps| - 1], stamps[|stamps| - 1];
      HistoryIsForced(init);
      ExtendBreaks(HistoryAfter(init), now);
      ExtendPasses(HistoryAfter(init), now);
      assert stamps == init + [now];
    }
  }

  lemma {:induction false} ChainSpan(chain: Chain)
    requires ChainOk(chain)
    ensures chain[|chain| - 1].at.day - chain[0].at.day + 1 == |chain| + Passes(chain)
  {
    if |chain| > 1 {
      ChainSpan(chain[..|chain| - 1]);
    } else {
      assert chain[..0] == [];
    }
  }

  lemma {:induction false} LongestIsMax(chains: seq<Chain>)
    ensures forall i :: 0 <= i < |chains| ==> |chains[i]| <= Longest(chains)
    ensures chains != [] ==> exists i :: 0 <= i < |chains| && |chains[i]| == Longest(chains)
  {
    if chains != [] {
      var init := chains[..|chains| - 1];
      LongestIsMax(init);
      if |chains[|chains| - 1]| < Longest(chains) {
        assert Longest([]) == 0 && init != [];
        var i :| 0 <= i < |init| && |init[i]| == Longest(init);
        assert chains[i] == init[i];
      } else {
        assert |chains[|chains| - 1]| == Longest(chains);
      }
    }
  }

  /**
   * What the figures mean. The chains are runs of days one apart, or two with a pass; they break only when they must,
   * and every pass forgives a missed day. The current chain's span is the current streak plus its passes, the longest
   * streak is the maximum over all chains, and the passes lie in pairwise different months.
   */
  ghost predicate Means(f: Figures, h: History) {
    && ChainsOk(h) && BreaksForced(h) && PassesAreGraces(h)
    && f.last == LastVisit(h).at && f.current == |LastChain(h)|
    && f.last.day - LastChain(h)[0].at.day + 1 == f.current + Passes(LastChain(h))
    && (forall i :: 0 <= i < |h.chains| ==> |h.chains[i]| <= f.longest)
    && (exists i :: 0 <= i < |h.chains| && |h.chains[i]| == f.longest)
    && (forall i, j :: 0 <= i < j < |h.passes| ==> h.passes[i].month != h.passes[j].month)
  }

  lemma MirrorsMeans(f: Figures, h: History)
    requires Mirrors(f, h) && BreaksForced(h) && PassesAreGraces(h)
    ensures Means(f, h)
  {
    ChainSpan(LastChain(h));
    LongestIsMax(h.chains);
  }

  /** After every run the figures mean what the chains say, and the last visit is the latest day. */
  lemma HistoryMeans(stamps: seq<Stamp>)
    requires stamps != [] && AllInOrder(stamps)
    ensures var f := FiguresAfter(stamps);
      && Means(f, HistoryAfter(stamps))
      && f.last in stamps && forall s :: s in stamps ==> s.day <= f.last.day
  {
    FiguresMirrorHistory(stamps);
    HistoryIsForced(stamps);
    MirrorsMeans(FiguresAfter(stamps), HistoryAfter(stamps));
  }
}
