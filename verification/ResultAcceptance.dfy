/** What a request accepts, said of the release alone: the whole verdict on each release, for
    every kind of request, and what it is counted as. */
module ResultAcceptance {
  import opened Basics
  import opened ResultValidation

  // ---------------------------------------------------------------------------
  // Title and year

  ghost predicate TitleServes(env: Env, q: Query, p: Parsed) {
    var leading := (q.content == Series || q.content == Anime) && (!q.Seasonless() || q.episode > 0);
    q.expectations == [] ||
    exists e :: e in q.expectations && e.title != ""
                && (env.matches(e.title, p.title, leading) || env.similar(e.title, p.title))
  }

  // A release without a year is of any year; otherwise it is off by one at most.
  ghost predicate YearServes(q: Query, p: Parsed) {
    exists e :: e in q.expectations && e.year > 0 && (p.year <= 0 || -1 <= p.year - e.year <= 1)
  }

  ghost predicate TitleMatters(q: Query) {
    q.enforceTitle && q.expectations != []
  }

  ghost predicate YearMatters(q: Query) {
    q.enforceYear && exists e :: e in q.expectations && e.year > 0
  }

  // ---------------------------------------------------------------------------
  // An episode, and the packs that hold it

  // An OVA that shares a bare number with the regular episode, which it is not.
  predicate IsBareOva(env: Env, q: Query, p: Parsed, title: string) {
    && q.content == Anime && !q.ovaSeries && (q.Season() > 0 || q.Seasonless())
    && p.seasons == [] && |p.episodes| <= 1 && ("OVA" in p.extras || env.ovaNumber(title).Some?)
  }

  predicate NamesEpisode(env: Env, q: Query, p: Parsed, title: string) {
    Names(p, q.Wanted()) && !IsBareOva(env, q, p, title)
  }

  predicate HoldsInSeasonPack(q: Query, p: Parsed) {
    !Names(p, q.Wanted()) && !q.Seasonless() && IsSeasonPack(p, q.Season())
  }

  // In a numbering without seasons, a pack that carries the number itself is no pack.
  predicate HoldsInShowPack(q: Query, p: Parsed) {
    && !Names(p, q.Wanted()) && IsShowPack(p)
    && (!q.Seasonless() || !HasEpisode(p, q.episode) || (q.absolute > 0 && !HasEpisode(p, q.absolute)))
  }

  predicate HoldsInPack(q: Query, p: Parsed) {
    HoldsInSeasonPack(q, p) || HoldsInShowPack(q, p)
  }

  // Anime that names no episode in any numbering, nor another one.
  predicate NamesNothing(env: Env, q: Query, p: Parsed, title: string) {
    && q.content == Anime && !NamesEpisode(env, q, p, title) && !HoldsInPack(q, p)
    && !NamesOther(env, p, title, q.Wanted(), q.ovaSeries)
  }

  predicate RightNumber(env: Env, q: Query, p: Parsed, title: string) {
    if q.content != Series && q.content != Anime then true
    else if q.episode > 0 then
      NamesEpisode(env, q, p, title) || HoldsInPack(q, p) || NamesNothing(env, q, p, title)
    else q.Seasonless() || HasSeason(p, q.Season())
  }

  // A pack, in a request that takes none.
  predicate RefusedPack(env: Env, q: Query, p: Parsed, title: string) {
    && !q.acceptPacks && (q.content == Series || q.content == Anime)
    && if q.episode > 0 then HoldsInPack(q, p) || (NamesNothing(env, q, p, title) && IsSeasonOnly(p))
       else !q.Seasonless() && (IsShowPack(p) || IsSeasonPack(p, q.Season()))
  }

  function NumberReason(q: Query): Reason {
    if q.episode > 0 then WrongEpisode else WrongSeason
  }

  /** What an accepted release is counted as. */
  function KindOf(env: Env, q: Query, p: Parsed, title: string): Accepted {
    if q.content != Series && q.content != Anime then Uncounted
    else if q.episode > 0 then
      if NamesEpisode(env, q, p, title) then (if |p.episodes| <= 1 then ExactEpisode else MultiEpisode)
      else if HoldsInSeasonPack(q, p) then SeasonPack
      else if HoldsInShowPack(q, p) then CompletePack
      else Uncounted
    else if q.Seasonless() then Uncounted
    else if IsShowPack(p) then CompletePack
    else if IsSeasonPack(p, q.Season()) then SeasonPack
    else SeasonMatch
  }

  /** The verdict on a release. */
  ghost function Ruling(env: Env, q: Query, title: string): Verdict {
    match env.parse(title)
    case None => Drop(Unparsed)
    case Some(p) =>
      if TitleMatters(q) && !TitleServes(env, q, p) then Drop(WrongTitle)
      else if !RightNumber(env, q, p, title) then Drop(NumberReason(q))
      else if YearMatters(q) && !YearServes(q, p) then Drop(WrongYear)
      else if RefusedPack(env, q, p, title) then Drop(NumberReason(q))
      else Keep(KindOf(env, q, p, title))
  }

  // ---------------------------------------------------------------------------
  // The ranks mean these

  lemma RankIsExactly(p: Parsed, q: Query)
    requires q.episode > 0
    ensures TargetRank(p, q.Wanted()) == 4 <==> Names(p, q.Wanted()) && |p.episodes| <= 1
    ensures TargetRank(p, q.Wanted()) == 3 <==> Names(p, q.Wanted()) && |p.episodes| > 1
    ensures TargetRank(p, q.Wanted()) == 2 <==> HoldsInSeasonPack(q, p)
    ensures TargetRank(p, q.Wanted()) == 1 <==> HoldsInShowPack(q, p) && !HoldsInSeasonPack(q, p)
    ensures TargetRank(p, q.Wanted()) == 0 <==> !Names(p, q.Wanted()) && !HoldsInPack(q, p)
  {
  }

  lemma TitleFitsExactly(env: Env, q: Query, p: Parsed)
    ensures TitleFits(env, q, p.title) <==> TitleServes(env, q, p)
  {
    if TitleServes(env, q, p) && q.expectations != [] {
      var leading := (q.content == Series || q.content == Anime) && (!q.Seasonless() || q.episode > 0);
      var e :| e in q.expectations && e.title != ""
               && (env.matches(e.title, p.title, leading) || env.similar(e.title, p.title));
      var i :| 0 <= i < |q.expectations| && q.expectations[i] == e;
      assert FitsByWords(env, q, q.expectations[i].title, p.title)
             || FitsBySimilarity(env, q.expectations[i].title, p.title);
    }
  }

  lemma YearFitsExactly(q: Query, p: Parsed)
    ensures YearFitsAny(q, p.year) <==> YearServes(q, p)
    ensures q.AppliesYear() <==> YearMatters(q)
  {
    if e :| e in q.expectations && e.year > 0 && (p.year <= 0 || -1 <= p.year - e.year <= 1) {
      var i :| 0 <= i < |q.expectations| && q.expectations[i] == e;
      assert q.expectations[i].year > 0 && YearFits(q.expectations[i].year, p.year);
    }
    if YearMatters(q) {
      var e :| e in q.expectations && e.year > 0;
      var i :| 0 <= i < |q.expectations| && q.expectations[i] == e;
    }
  }

  lemma NumberIsExactly(env: Env, q: Query, p: Parsed, title: string)
    ensures WrongNumber(env, q, p, title).Some? <==> !RightNumber(env, q, p, title)
    ensures WrongNumber(env, q, p, title).Some? ==> WrongNumber(env, q, p, title).value == NumberReason(q)
  {
    if q.episode > 0 {
      RankIsExactly(p, q);
    }
  }

  lemma PlaceIsExactly(env: Env, q: Query, p: Parsed, title: string)
    requires RightNumber(env, q, p, title)
    ensures Placed(env, q, p, title) ==
              if RefusedPack(env, q, p, title) then Drop(NumberReason(q)) else Keep(KindOf(env, q, p, title))
  {
    if q.episode > 0 {
      RankIsExactly(p, q);
    }
  }

  /** Every release in every request gets this verdict: a film or an episodic request
      without numbers goes by title and year; an episode request keeps what names the
      episode, the packs that hold it if it takes packs, and for anime what names nothing;
      a season request keeps the season, and its packs if it takes them. */
  lemma VerdictIsExactly(env: Env, q: Query, title: string)
    ensures Judge(env, q, title) == Ruling(env, q, title)
  {
    if env.parse(title).Some? {
      var p := env.parse(title).value;
      TitleFitsExactly(env, q, p);
      YearFitsExactly(q, p);
      NumberIsExactly(env, q, p, title);
      if RightNumber(env, q, p, title) {
        PlaceIsExactly(env, q, p, title);
      }
    }
  }

  // ---------------------------------------------------------------------------
  // Each kind of request, over listings

  ghost predicate RightOtherwise(env: Env, q: Query, p: Parsed) {
    (TitleMatters(q) ==> TitleServes(env, q, p)) && (YearMatters(q) ==> YearServes(q, p))
  }

  ghost function KeptBy(env: Env, q: Query, releases: seq<Release>): seq<Release> {
    if releases == [] then []
    else
      var n := |releases| - 1;
      KeptBy(env, q, releases[..n]) + if Ruling(env, q, releases[n].title).Keep? then [releases[n]] else []
  }

  // The verdicts on a listing, in order, and the places of one of them.
  ghost function Rulings(env: Env, q: Query, releases: seq<Release>): seq<Verdict> {
    seq(|releases|, i requires 0 <= i < |releases| => Ruling(env, q, releases[i].title))
  }

  function PlacesWith(verdicts: seq<Verdict>, v: Verdict): set<int> {
    set i | 0 <= i < |verdicts| && verdicts[i] == v
  }

  lemma PlacesOneMore(verdicts: seq<Verdict>, last: Verdict, v: Verdict)
    ensures |PlacesWith(verdicts + [last], v)| == |PlacesWith(verdicts, v)| + if last == v then 1 else 0
  {
    assert PlacesWith(verdicts + [last], v) == PlacesWith(verdicts, v) + if last == v then {|verdicts|} else {};
  }

  lemma RulingsOneMore(env: Env, q: Query, releases: seq<Release>)
    requires releases != []
    ensures var n := |releases| - 1;
            Rulings(env, q, releases) == Rulings(env, q, releases[..n]) + [Ruling(env, q, releases[n].title)]
  {
  }

  /** What is kept of a listing are the releases with such a verdict, in order. */
  lemma {:induction false} ListingIsKeptByRuling(env: Env, q: Query, releases: seq<Release>)
    ensures Kept(env, q, releases) == KeptBy(env, q, releases)
  {
    if releases != [] {
      ListingIsKeptByRuling(env, q, releases[..|releases| - 1]);
      VerdictIsExactly(env, q, releases[|releases| - 1].title);
    }
  }

  /** Each verdict is counted as often as it was given. */
  lemma {:induction false} ListingIsCountedByRuling(env: Env, q: Query, releases: seq<Release>, v: Verdict)
    ensures Count(env, q, releases, v) == |PlacesWith(Rulings(env, q, releases), v)|
  {
    if releases == [] {
      assert PlacesWith([], v) == {};
    } else {
      var n := |releases| - 1;
      ListingIsCountedByRuling(env, q, releases[..n], v);
      VerdictIsExactly(env, q, releases[n].title);
      RulingsOneMore(env, q, releases);
      PlacesOneMore(Rulings(env, q, releases[..n]), Ruling(env, q, releases[n].title), v);
    }
  }

  /** A series request for an episode that takes packs keeps exactly what names the episode
      or holds it in a season pack or a show pack. */
  lemma SeriesEpisodeWithPacks(env: Env, q: Query, title: string)
    requires q.content == Series && q.episode > 0 && q.acceptPacks && env.parse(title).Some?
    ensures var p := env.parse(title).value;
            Judge(env, q, title).Keep? <==>
              RightOtherwise(env, q, p) && (Names(p, q.Wanted()) || HoldsInSeasonPack(q, p) || HoldsInShowPack(q, p))
  {
    VerdictIsExactly(env, q, title);
  }

  /** An anime request also keeps what names nothing. */
  lemma AnimeEpisodeWithPacks(env: Env, q: Query, title: string)
    requires q.content == Anime && q.episode > 0 && q.acceptPacks && env.parse(title).Some?
    ensures var p := env.parse(title).value;
            Judge(env, q, title).Keep? <==>
              && RightOtherwise(env, q, p)
              && (NamesEpisode(env, q, p, title) || HoldsInSeasonPack(q, p) || HoldsInShowPack(q, p)
                  || !NamesOther(env, p, title, q.Wanted(), q.ovaSeries))
  {
    VerdictIsExactly(env, q, title);
  }

  /** A season request keeps exactly the season, and its packs exactly if it takes them. */
  lemma SeasonRequestKeepsTheSeason(env: Env, q: Query, title: string)
    requires (q.content == Series || q.content == Anime) && q.episode <= 0 && !q.Seasonless() && env.parse(title).Some?
    ensures var p := env.parse(title).value;
            Judge(env, q, title).Keep? <==>
              && RightOtherwise(env, q, p) && HasSeason(p, q.Season())
              && (q.acceptPacks || (!IsShowPack(p) && !IsSeasonPack(p, q.Season())))
  {
    VerdictIsExactly(env, q, title);
  }

  // ---------------------------------------------------------------------------
  // When an anime release names another episode

  // Its only number is a date that is not the episode's, or not known to be.
  predicate DatedElsewhere(env: Env, p: Parsed, t: Target) {
    p.seasons == [] && p.episodes == [] && p.date != "" && (t.airDate == "" || env.apart(p.date, t.airDate))
  }

  predicate IsSpecial(t: Target) {
    !t.seasonless && t.season == 0
  }

  // The numbers of an OVA: its episodes or, when the parser read none, the one in its title.
  function OvaNumbers(env: Env, p: Parsed, title: string): seq<int> {
    if p.episodes == [] && env.ovaNumber(title).Some? then [env.ovaNumber(title).value] else p.episodes
  }

  // An OVA with numbers, when a regular episode is wanted.
  predicate IsNumberedOva(env: Env, p: Parsed, title: string, t: Target) {
    && !IsSpecial(t) && OvaNumbers(env, p, title) != []
    && (env.ovaNumber(title).Some? || ("OVA" in p.extras && !IsSeasonOnly(p)))
  }

  // The episode itself, where an OVA series lists its OVAs as season 1.
  predicate IsOwnOva(env: Env, p: Parsed, title: string, t: Target, ovaSeries: bool) {
    && ovaSeries && (t.seasonless || t.season <= 1) && (p.seasons == [] || HasSeason(p, 1))
    && t.episode in OvaNumbers(env, p, title)
  }

  // A pack that may hold the episode after all: one of an earlier season when the absolute
  // number is known, or one with OVAs when a special is wanted.
  predicate MayHoldIt(env: Env, p: Parsed, title: string, t: Target) {
    && p.seasons != [] && p.episodes == []
    && (|| (t.absolute > 0 && exists s :: s in p.seasons && s >= 1 && (t.seasonless || s <= t.season))
        || (IsSpecial(t) && IsOva(env, p, title)))
  }

  lemma RegularUpTo(p: Parsed, t: Target)
    ensures (exists i :: 0 <= i < |p.seasons| && p.seasons[i] >= 1 && (t.seasonless || p.seasons[i] <= t.season))
            <==> exists s :: s in p.seasons && s >= 1 && (t.seasonless || s <= t.season)
  {
    if s :| s in p.seasons && s >= 1 && (t.seasonless || s <= t.season) {
      var i :| 0 <= i < |p.seasons| && p.seasons[i] == s;
    }
    if i :| 0 <= i < |p.seasons| && p.seasons[i] >= 1 && (t.seasonless || p.seasons[i] <= t.season) {
      assert p.seasons[i] in p.seasons;
    }
  }

  /** A release names another episode exactly when the target can pick a file and the release
      is dated elsewhere, or is a numbered OVA that is not the episode, or carries a number
      and is neither a special's unnumbered OVA nor a pack that may hold the episode. */
  lemma NamesOtherExactlyWhen(env: Env, p: Parsed, title: string, t: Target, ovaSeries: bool)
    ensures NamesOther(env, p, title, t, ovaSeries) <==>
              && (t.absolute > 0 || (!t.seasonless && t.episode > 0))
              && (|| DatedElsewhere(env, p, t)
                  || (IsNumberedOva(env, p, title, t) && !IsOwnOva(env, p, title, t, ovaSeries))
                  || (&& !IsNumberedOva(env, p, title, t) && (p.seasons != [] || p.episodes != [])
                      && !(IsSpecial(t) && IsOva(env, p, title) && p.seasons == [])
                      && !MayHoldIt(env, p, title, t)))
  {
    RegularUpTo(p, t);
  }
}
