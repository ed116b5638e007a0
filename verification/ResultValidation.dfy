/** Filtering search results against what a request expects, and the books kept on it. */
module ResultValidation {
  import opened Basics

  // What the title parser reads off a release name.
  datatype Parsed = Parsed(title: string, seasons: seq<int>, episodes: seq<int>, episode: int, year: int,
                           date: string, complete: bool, extras: seq<string>)

  datatype Target = Target(season: int, seasonless: bool, episode: int, absolute: int, airDate: string)

  datatype Content = Movie | Series | Anime | Other

  datatype Expectation = Expectation(title: string, year: int)

  // A request: numbers are as parsed, `season` is None when it names no number.
  datatype Query = Query(content: Content, expectations: seq<Expectation>, season: Option<int>, episode: int,
                         absolute: int, airDate: string, ovaSeries: bool, enforceTitle: bool, enforceYear: bool,
                         acceptPacks: bool, recordDropped: int)
  {
    predicate Seasonless() { season.None? || season.value < 0 }
    function Season(): int { if Seasonless() then 0 else season.value }
    function Wanted(): Target { Target(Season(), Seasonless(), episode, absolute, airDate) }
    predicate Episodic() { content == Series || content == Anime }
    predicate AllowsLeadingWords() { Episodic() && (!Seasonless() || episode > 0) }
    predicate AppliesTitle() { enforceTitle && expectations != [] }
    predicate AppliesYear() { enforceYear && exists i :: 0 <= i < |expectations| && expectations[i].year > 0 }
  }

  datatype Release = Release(title: string, indexer: string)

  // Parsing and text comparison, as functions of the names: the parser, the word
  // matcher (which may allow leading words), the similarity fallback, the number of
  // an OVA in a title, and whether two dates are more than a day apart.
  datatype Env = Env(parse: string -> Option<Parsed>, matches: (string, string, bool) -> bool,
                     similar: (string, string) -> bool, ovaNumber: string -> Option<int>,
                     apart: (string, string) -> bool)

  // ---------------------------------------------------------------------------
  // How well a release serves an episode

  predicate HasSeason(p: Parsed, season: int) {
    season >= 0 && season in p.seasons
  }

  predicate HasEpisode(p: Parsed, episode: int) {
    episode > 0 && (episode in p.episodes || p.episode == episode)
  }

  predicate IsShowPack(p: Parsed) {
    p.complete && |p.episodes| == 0 && |p.seasons| != 1
  }

  predicate IsSeasonPack(p: Parsed, season: int) {
    HasSeason(p, season) && |p.episodes| == 0 && !IsShowPack(p)
  }

  predicate IsSeasonOnly(p: Parsed) {
    |p.seasons| > 0 && |p.episodes| == 0
  }

  function EpisodeRank(p: Parsed, season: int, episode: int): int {
    if season < 0 || episode <= 0 then 0
    else if HasSeason(p, season) && HasEpisode(p, episode) && |p.episodes| <= 1 then 4
    else if HasSeason(p, season) && HasEpisode(p, episode) && |p.episodes| > 1 then 3
    else if IsSeasonPack(p, season) then 2
    else if IsShowPack(p) then 1
    else 0
  }

  function SeasonlessRank(p: Parsed, episode: int): int {
    if episode <= 0 then 0
    else if HasEpisode(p, episode) then
      if |p.seasons| > 0 && !HasSeason(p, 1) then 0 else if |p.episodes| <= 1 then 4 else 3
    else if IsShowPack(p) then 1
    else 0
  }

  predicate IsAirDateRelease(p: Parsed, airDate: string) {
    airDate != "" && p.date == airDate && |p.seasons| == 0 && |p.episodes| == 0
  }

  function TargetRank(p: Parsed, t: Target): int {
    var named := if t.seasonless then SeasonlessRank(p, t.episode) else EpisodeRank(p, t.season, t.episode);
    var rank := if t.absolute > 0 then Max(named, SeasonlessRank(p, t.absolute)) else named;
    if IsAirDateRelease(p, t.airDate) then Max(rank, 4) else rank
  }

  /** The release names the episode, in one of the numberings of the target. */
  predicate Names(p: Parsed, t: Target) {
    || (!t.seasonless && HasSeason(p, t.season) && HasEpisode(p, t.episode))
    || (t.seasonless && HasEpisode(p, t.episode) && (|p.seasons| == 0 || HasSeason(p, 1)))
    || (t.absolute > 0 && HasEpisode(p, t.absolute) && (|p.seasons| == 0 || HasSeason(p, 1)))
    || IsAirDateRelease(p, t.airDate)
  }

  /** Ranks run from 0 to 4; 3 and 4 are the releases that name the episode. */
  lemma RankMeans(p: Parsed, t: Target)
    ensures 0 <= TargetRank(p, t) <= 4
    ensures TargetRank(p, t) >= 3 <==> Names(p, t)
    ensures TargetRank(p, t) == 2 ==> IsSeasonPack(p, t.season)
    ensures TargetRank(p, t) == 1 ==> IsShowPack(p)
  {
  }

  predicate IsOva(env: Env, p: Parsed, title: string) {
    "OVA" in p.extras || env.ovaNumber(title).Some?
  }

  predicate Valid(t: Target) {
    (!t.seasonless && t.episode > 0) || t.absolute > 0
  }

  // Whether an anime release that did not rank names another episode outright.
  predicate NamesOther(env: Env, p: Parsed, title: string, t: Target, ovaSeries: bool) {
    var numbered := env.ovaNumber(title).Some?;
    var ova := numbered || "OVA" in p.extras;
    var special := t.season == 0 && !t.seasonless;
    var numbers := if |p.episodes| == 0 && numbered then [env.ovaNumber(title).value] else p.episodes;
    var asOva := ova && !special && (numbered || !IsSeasonOnly(p));
    var regularUpTo :=
      exists i :: 0 <= i < |p.seasons| && p.seasons[i] >= 1 && (t.seasonless || p.seasons[i] <= t.season);
    if !Valid(t) then false
    else if |p.seasons| == 0 && |p.episodes| == 0 && p.date != ""
            && (t.airDate == "" || env.apart(p.date, t.airDate)) then true
    else if asOva && ovaSeries && (t.season <= 1 || t.seasonless) && (|p.seasons| == 0 || HasSeason(p, 1))
            && t.episode in numbers then false
    else if asOva && |numbers| > 0 then true
    else if ova && special && |p.seasons| == 0 then false
    else if IsSeasonOnly(p) && ((t.absolute > 0 && regularUpTo) || (ova && special)) then false
    else |p.seasons| > 0 || |p.episodes| > 0
  }

  // The rank a request goes by: an anime OVA matched by a bare number does not rank.
  function RankFor(env: Env, q: Query, p: Parsed, title: string): int {
    var t := q.Wanted();
    var rank := TargetRank(p, t);
    if q.content == Anime && rank == 4 && !q.ovaSeries && (t.season > 0 || t.seasonless) && |p.seasons| == 0
       && IsOva(env, p, title)
    then 0
    else rank
  }

  // ---------------------------------------------------------------------------
  // One release

  datatype Reason = Unparsed | WrongTitle | WrongEpisode | WrongSeason | WrongYear

  datatype Accepted = ExactEpisode | MultiEpisode | SeasonPack | CompletePack | SeasonMatch | Uncounted

  datatype Verdict = Drop(reason: Reason) | Keep(accepted: Accepted)

  predicate FitsByWords(env: Env, q: Query, expected: string, got: string) {
    expected != "" && env.matches(expected, got, q.AllowsLeadingWords())
  }

  predicate FitsBySimilarity(env: Env, expected: string, got: string) {
    expected != "" && env.similar(expected, got)
  }

  predicate TitleFits(env: Env, q: Query, got: string) {
    || q.expectations == []
    || (exists i :: 0 <= i < |q.expectations| && FitsByWords(env, q, q.expectations[i].title, got))
    || (exists i :: 0 <= i < |q.expectations| && FitsBySimilarity(env, q.expectations[i].title, got))
  }

  predicate YearFits(year: int, got: int) {
    year <= 0 || got <= 0 || year - 1 <= got <= year + 1
  }

  predicate YearFitsAny(q: Query, got: int) {
    exists i :: 0 <= i < |q.expectations| && q.expectations[i].year > 0 && YearFits(q.expectations[i].year, got)
  }

  // Checks before the year: the season or the episode.
  function WrongNumber(env: Env, q: Query, p: Parsed, title: string): Option<Reason> {
    if !q.Episodic() then None
    else if q.episode > 0 then
      if RankFor(env, q, p, title) == 0 && (q.content != Anime || NamesOther(env, p, title, q.Wanted(), q.ovaSeries))
      then Some(WrongEpisode) else None
    else if !q.Seasonless() && !HasSeason(p, q.Season()) then Some(WrongSeason)
    else None
  }

  // Checks after the year: packs, and what the release is counted as.
  function Placed(env: Env, q: Query, p: Parsed, title: string): Verdict {
    if !q.Episodic() then Keep(Uncounted)
    else if q.episode > 0 then
      var rank := RankFor(env, q, p, title);
      if !q.acceptPacks && ((q.content == Anime && rank == 0 && IsSeasonOnly(p)) || 0 < rank < 3)
         then Drop(WrongEpisode)
      else
        Keep(match rank
             case 4 => ExactEpisode
             case 3 => MultiEpisode
             case 2 => SeasonPack
             case 1 => CompletePack
             case _ => Uncounted)
    else if !q.Seasonless() then
      if !q.acceptPacks && (IsShowPack(p) || IsSeasonPack(p, q.Season())) then Drop(WrongSeason)
      else if IsShowPack(p) then Keep(CompletePack)
      else if IsSeasonPack(p, q.Season()) then Keep(SeasonPack)
      else if HasSeason(p, q.Season()) then Keep(SeasonMatch)
      else Keep(Uncounted)
    else Keep(Uncounted)
  }

  function Judge(env: Env, q: Query, title: string): Verdict {
    match env.parse(title)
    case None => Drop(Unparsed)
    case Some(p) =>
      if q.AppliesTitle() && !TitleFits(env, q, p.title) then Drop(WrongTitle)
      else if WrongNumber(env, q, p, title).Some? then Drop(WrongNumber(env, q, p, title).value)
      else if q.AppliesYear() && !YearFitsAny(q, p.year) then Drop(WrongYear)
      else Placed(env, q, p, title)
  }

  // A title that does not fit, in a request that does not enforce it.
  predicate Mismatch(env: Env, q: Query, title: string) {
    env.parse(title).Some? && !TitleFits(env, q, env.parse(title).value.title) && !q.AppliesTitle()
  }

  // ---------------------------------------------------------------------------
  // A listing

  function Kept(env: Env, q: Query, releases: seq<Release>): seq<Release> {
    if releases == [] then []
    else
      var n := |releases| - 1;
      Kept(env, q, releases[..n]) + if Judge(env, q, releases[n].title).Keep? then [releases[n]] else []
  }

  datatype DropNote = DropNote(reason: Reason, title: string, indexer: string)

  function Dropped(env: Env, q: Query, releases: seq<Release>): seq<DropNote> {
    if releases == [] then []
    else
      var n := |releases| - 1;
      Dropped(env, q, releases[..n]) + NoteOf(releases[n], Judge(env, q, releases[n].title))
  }

  function NoteOf(r: Release, v: Verdict): seq<DropNote> {
    match v
    case Drop(reason) => [DropNote(reason, r.title, r.indexer)]
    case Keep(_) => []
  }

  function Count(env: Env, q: Query, releases: seq<Release>, v: Verdict): nat {
    if releases == [] then 0
    else
      var n := |releases| - 1;
      Count(env, q, releases[..n], v) + if Judge(env, q, releases[n].title) == v then 1 else 0
  }

  function Mismatches(env: Env, q: Query, releases: seq<Release>): nat {
    if releases == [] then 0
    else
      var n := |releases| - 1;
      Mismatches(env, q, releases[..n]) + if Mismatch(env, q, releases[n].title) then 1 else 0
  }

  datatype Stats = Stats(raw: nat, final: nat, rejected: int,
                         exactEpisode: nat, multiEpisode: nat, seasonPack: nat, completePack: nat, seasonMatch: nat,
                         droppedTitle: nat, droppedEpisode: nat, droppedSeason: nat, droppedYear: nat,
                         mismatchKept: nat, dropped: seq<DropNote>, omitted: nat)

  const NO_STATS := Stats(0, 0, 0, 0, 0, 0, 0, 0, 0, 0, 0, 0, 0, [], 0)

  ghost predicate CountsAccepted(env: Env, q: Query, seen: seq<Release>, s: Stats) {
    && s.exactEpisode == Count(env, q, seen, Keep(ExactEpisode))
    && s.multiEpisode == Count(env, q, seen, Keep(MultiEpisode))
    && s.seasonPack == Count(env, q, seen, Keep(SeasonPack))
    && s.completePack == Count(env, q, seen, Keep(CompletePack))
    && s.seasonMatch == Count(env, q, seen, Keep(SeasonMatch))
  }

  ghost predicate CountsDropped(env: Env, q: Query, seen: seq<Release>, s: Stats) {
    && s.droppedTitle == Count(env, q, seen, Drop(Unparsed)) + Count(env, q, seen, Drop(WrongTitle))
    && s.droppedEpisode == Count(env, q, seen, Drop(WrongEpisode))
    && s.droppedSeason == Count(env, q, seen, Drop(WrongSeason))
    && s.droppedYear == Count(env, q, seen, Drop(WrongYear))
  }

  /** The counters say how many releases got each verdict. */
  ghost predicate Books(env: Env, q: Query, seen: seq<Release>, s: Stats) {
    && s.raw == |seen|
    && CountsAccepted(env, q, seen, s)
    && CountsDropped(env, q, seen, s)
    && s.mismatchKept == Mismatches(env, q, seen)
  }

  // The record names the first dropped releases, up to its limit, and counts the others.
  ghost predicate Recorded(limit: int, notes: seq<DropNote>, s: Stats) {
    if limit <= 0 then s.dropped == [] && s.omitted == 0
    else s.dropped == notes[..Min(limit, |notes|)] && |s.dropped| + s.omitted == |notes|
  }

  // ---------------------------------------------------------------------------
  // The loops

  method RecordDrop(s: Stats, limit: int, r: Release, reason: Reason, ghost notes: seq<DropNote>) returns (s': Stats)
    requires Recorded(limit, notes, s)
    ensures Recorded(limit, notes + [DropNote(reason, r.title, r.indexer)], s')
    ensures s' == s.(dropped := s'.dropped, omitted := s'.omitted)
  {
    if limit <= 0 {
      return s;
    }
    if |s.dropped| >= limit {
      return s.(omitted := s.omitted + 1);
    }
    s' := s.(dropped := s.dropped + [DropNote(reason, r.title, r.indexer)]);
  }

  method TitleMatchesAny(env: Env, q: Query, got: string) returns (fits: bool)
    ensures fits == TitleFits(env, q, got)
  {
    if |q.expectations| == 0 {
      return true;
    }
    for i := 0 to |q.expectations|
      invariant forall j :: 0 <= j < i ==> !FitsByWords(env, q, q.expectations[j].title, got)
    {
      if q.expectations[i].title != "" && env.matches(q.expectations[i].title, got, q.AllowsLeadingWords()) {
        return true;
      }
    }
    for i := 0 to |q.expectations|
      invariant forall j :: 0 <= j < i ==> !FitsBySimilarity(env, q.expectations[j].title, got)
    {
      if q.expectations[i].title != "" && env.similar(q.expectations[i].title, got) {
        return true;
      }
    }
    return false;
  }

  method YearMatchesAny(q: Query, got: int) returns (fits: bool)
    ensures fits == YearFitsAny(q, got)
  {
    for i := 0 to |q.expectations|
      invariant forall j :: 0 <= j < i ==> q.expectations[j].year <= 0 || !YearFits(q.expectations[j].year, got)
    {
      if q.expectations[i].year > 0 && YearFits(q.expectations[i].year, got) {
        return true;
      }
    }
    return false;
  }

  method AnyHasYear(q: Query) returns (has: bool)
    ensures has <==> exists i :: 0 <= i < |q.expectations| && q.expectations[i].year > 0
  {
    for i := 0 to |q.expectations|
      invariant forall j :: 0 <= j < i ==> q.expectations[j].year <= 0
    {
      if q.expectations[i].year > 0 {
        return true;
      }
    }
    return false;
  }

  // What a verdict adds to the counters.
  function Accounted(s: Stats, v: Verdict): Stats {
    match v
    case Drop(Unparsed) => s.(droppedTitle := s.droppedTitle + 1)
    case Drop(WrongTitle) => s.(droppedTitle := s.droppedTitle + 1)
    case Drop(WrongEpisode) => s.(droppedEpisode := s.droppedEpisode + 1)
    case Drop(WrongSeason) => s.(droppedSeason := s.droppedSeason + 1)
    case Drop(WrongYear) => s.(droppedYear := s.droppedYear + 1)
    case Keep(ExactEpisode) => s.(exactEpisode := s.exactEpisode + 1)
    case Keep(MultiEpisode) => s.(multiEpisode := s.multiEpisode + 1)
    case Keep(SeasonPack) => s.(seasonPack := s.seasonPack + 1)
    case Keep(CompletePack) => s.(completePack := s.completePack + 1)
    case Keep(SeasonMatch) => s.(seasonMatch := s.seasonMatch + 1)
    case Keep(Uncounted) => s
  }

  // The statistics after one release more: the counters go by its verdict.
  ghost predicate Follows(q: Query, s: Stats, r: Release, v: Verdict, before: seq<DropNote>, s': Stats) {
    && s'.(dropped := s.dropped, omitted := s.omitted) == Accounted(s, v)
    && Recorded(q.recordDropped, before + NoteOf(r, v), s')
  }

  method Reject(q: Query, s: Stats, r: Release, reason: Reason, ghost before: seq<DropNote>) returns (s': Stats)
    requires Recorded(q.recordDropped, before, s)
    ensures Follows(q, s, r, Drop(reason), before, s')
  {
    match reason {
      case Unparsed => s' := s.(droppedTitle := s.droppedTitle + 1);
      case WrongTitle => s' := s.(droppedTitle := s.droppedTitle + 1);
      case WrongEpisode => s' := s.(droppedEpisode := s.droppedEpisode + 1);
      case WrongSeason => s' := s.(droppedSeason := s.droppedSeason + 1);
      case WrongYear => s' := s.(droppedYear := s.droppedYear + 1);
    }
    s' := RecordDrop(s', q.recordDropped, r, reason, before);
  }

  method CheckNumber(env: Env, q: Query, p: Parsed, title: string) returns (rank: int, wrong: Option<Reason>)
    ensures wrong == WrongNumber(env, q, p, title)
    ensures q.Episodic() && q.episode > 0 ==> rank == RankFor(env, q, p, title)
  {
    rank := 0;
    if q.Episodic() {
      if q.episode > 0 {
        rank := TargetRank(p, q.Wanted());
        if q.content == Anime && rank == 4 && !q.ovaSeries && (q.Season() > 0 || q.Seasonless()) && |p.seasons| == 0
           && IsOva(env, p, title) {
          rank := 0;
        }
        if rank == 0 && (q.content != Anime || NamesOther(env, p, title, q.Wanted(), q.ovaSeries)) {
          return rank, Some(WrongEpisode);
        }
      } else if !q.Seasonless() && !HasSeason(p, q.Season()) {
        return rank, Some(WrongSeason);
      }
    }
    return rank, None;
  }

  // The end of the pass, for a release with the right title, number and year.
  method CountAccepted(env: Env, q: Query, p: Parsed, r: Release, rank: int, s: Stats, ghost before: seq<DropNote>)
      returns (keep: bool, s': Stats)
    requires Recorded(q.recordDropped, before, s)
    requires q.Episodic() && q.episode > 0 ==> rank == RankFor(env, q, p, r.title)
    ensures keep <==> Placed(env, q, p, r.title).Keep?
    ensures Follows(q, s, r, Placed(env, q, p, r.title), before, s')
  {
    assert before + [] == before;
    keep, s' := true, s;
    if q.Episodic() {
      if q.episode > 0 {
        var otherPack := q.content == Anime && rank == 0 && IsSeasonOnly(p);
        if !q.acceptPacks && (otherPack || (rank > 0 && rank < 3)) {
          s' := Reject(q, s, r, WrongEpisode, before);
          keep := false;
          return;
        }
        match rank {
          case 4 => s' := s'.(exactEpisode := s'.exactEpisode + 1);
          case 3 => s' := s'.(multiEpisode := s'.multiEpisode + 1);
          case 2 => s' := s'.(seasonPack := s'.seasonPack + 1);
          case 1 => s' := s'.(completePack := s'.completePack + 1);
          case _ =>
        }
      } else if !q.Seasonless() {
        if !q.acceptPacks && (IsShowPack(p) || IsSeasonPack(p, q.Season())) {
          s' := Reject(q, s, r, WrongSeason, before);
          keep := false;
          return;
        }
        if IsShowPack(p) {
          s' := s'.(completePack := s'.completePack + 1);
        } else if IsSeasonPack(p, q.Season()) {
          s' := s'.(seasonPack := s'.seasonPack + 1);
        } else if HasSeason(p, q.Season()) {
          s' := s'.(seasonMatch := s'.seasonMatch + 1);
        }
      }
    }
  }

  function Noticed(env: Env, q: Query, title: string, s: Stats): Stats {
    s.(raw := s.raw + 1, mismatchKept := s.mismatchKept + if Mismatch(env, q, title) then 1 else 0)
  }

  // One pass of the loop. `before` are the notes of the releases dropped so far.
  method Validate(env: Env, q: Query, yearApplied: bool, r: Release, s: Stats, ghost before: seq<DropNote>)
      returns (keep: bool, s': Stats)
    requires yearApplied == q.AppliesYear()
    requires Recorded(q.recordDropped, before, s)
    ensures keep <==> Judge(env, q, r.title).Keep?
    ensures Follows(q, Noticed(env, q, r.title, s), r, Judge(env, q, r.title), before, s')
  {
    keep := false;
    s' := s.(raw := s.raw + 1);
    var parsed := env.parse(r.title);
    if parsed.None? {
      s' := Reject(q, s', r, Unparsed, before);
      return;
    }
    var p := parsed.value;
    var fits := TitleMatchesAny(env, q, p.title);
    if q.expectations != [] && !fits {
      if q.enforceTitle {
        s' := Reject(q, s', r, WrongTitle, before);
        return;
      }
      s' := s'.(mismatchKept := s'.mismatchKept + 1);
    }
    assert s' == Noticed(env, q, r.title, s);
    var rank, wrong := CheckNumber(env, q, p, r.title);
    if wrong.Some? {
      s' := Reject(q, s', r, wrong.value, before);
      return;
    }
    if yearApplied {
      var inYear := YearMatchesAny(q, p.year);
      if !inYear {
        s' := Reject(q, s', r, WrongYear, before);
        return;
      }
    }
    keep, s' := CountAccepted(env, q, p, r, rank, s', before);
  }

  // What the loop holds after the releases `seen`.
  ghost predicate Filtered(env: Env, q: Query, seen: seq<Release>, kept: seq<Release>, s: Stats) {
    && kept == Kept(env, q, seen)
    && Books(env, q, seen, s)
    && Recorded(q.recordDropped, Dropped(env, q, seen), s)
  }

  // What one verdict does to the drop counters.
  lemma DropCountersAre(s: Stats, noticed: Stats, v: Verdict, s': Stats)
    requires noticed == s.(raw := noticed.raw, mismatchKept := noticed.mismatchKept)
    requires s'.(dropped := noticed.dropped, omitted := noticed.omitted) == Accounted(noticed, v)
    ensures s'.droppedTitle == s.droppedTitle + (if v == Drop(Unparsed) then 1 else 0)
            + (if v == Drop(WrongTitle) then 1 else 0)
    ensures s'.droppedEpisode == s.droppedEpisode + if v == Drop(WrongEpisode) then 1 else 0
    ensures s'.droppedSeason == s.droppedSeason + if v == Drop(WrongSeason) then 1 else 0
    ensures s'.droppedYear == s.droppedYear + if v == Drop(WrongYear) then 1 else 0
  {
  }

  lemma AcceptedOneMore(env: Env, q: Query, seen: seq<Release>, r: Release, s: Stats, s': Stats)
    requires CountsAccepted(env, q, seen, s)
    requires s'.(dropped := s.dropped, omitted := s.omitted) ==
             Accounted(Noticed(env, q, r.title, s), Judge(env, q, r.title))
    ensures CountsAccepted(env, q, seen + [r], s')
  {
    CountOneMore(env, q, seen, r, Keep(ExactEpisode));
    CountOneMore(env, q, seen, r, Keep(MultiEpisode));
    CountOneMore(env, q, seen, r, Keep(SeasonPack));
    CountOneMore(env, q, seen, r, Keep(CompletePack));
    CountOneMore(env, q, seen, r, Keep(SeasonMatch));
  }

  lemma DroppedOneMore(env: Env, q: Query, seen: seq<Release>, r: Release, s: Stats, s': Stats)
    requires CountsDropped(env, q, seen, s)
    requires s'.(dropped := s.dropped, omitted := s.omitted) ==
             Accounted(Noticed(env, q, r.title, s), Judge(env, q, r.title))
    ensures CountsDropped(env, q, seen + [r], s')
  {
    DropCountersAre(s, Noticed(env, q, r.title, s), Judge(env, q, r.title), s');
    CountOneMore(env, q, seen, r, Drop(Unparsed));
    CountOneMore(env, q, seen, r, Drop(WrongTitle));
    CountOneMore(env, q, seen, r, Drop(WrongEpisode));
    CountOneMore(env, q, seen, r, Drop(WrongSeason));
    CountOneMore(env, q, seen, r, Drop(WrongYear));
  }

  lemma BooksOneMore(env: Env, q: Query, seen: seq<Release>, r: Release, s: Stats, s': Stats)
    requires Books(env, q, seen, s) && Recorded(q.recordDropped, Dropped(env, q, seen), s)
    requires Follows(q, Noticed(env, q, r.title, s), r, Judge(env, q, r.title), Dropped(env, q, seen), s')
    ensures Books(env, q, seen + [r], s') && Recorded(q.recordDropped, Dropped(env, q, seen + [r]), s')
  {
    AcceptedOneMore(env, q, seen, r, s, s');
    DroppedOneMore(env, q, seen, r, s, s');
    NotesOneMore(env, q, seen, r);
  }

  lemma CountOneMore(env: Env, q: Query, seen: seq<Release>, r: Release, v: Verdict)
    ensures Count(env, q, seen + [r], v) == Count(env, q, seen, v) + if Judge(env, q, r.title) == v then 1 else 0
  {
    assert (seen + [r])[..|seen|] == seen;
  }

  lemma NotesOneMore(env: Env, q: Query, seen: seq<Release>, r: Release)
    ensures Dropped(env, q, seen + [r]) == Dropped(env, q, seen) + NoteOf(r, Judge(env, q, r.title))
    ensures Mismatches(env, q, seen + [r]) == Mismatches(env, q, seen) + if Mismatch(env, q, r.title) then 1 else 0
  {
    assert (seen + [r])[..|seen|] == seen;
  }

  lemma KeptOneMore(env: Env, q: Query, seen: seq<Release>, r: Release)
    ensures Kept(env, q, seen + [r]) == Kept(env, q, seen) + if Judge(env, q, r.title).Keep? then [r] else []
  {
    assert (seen + [r])[..|seen|] == seen;
  }

  lemma KeptLast(env: Env, q: Query, seen: seq<Release>)
    requires seen != []
    ensures var n := |seen| - 1;
            Kept(env, q, seen) ==
              if Judge(env, q, seen[n].title).Keep? then Kept(env, q, seen[..n]) + [seen[n]]
              else Kept(env, q, seen[..n])
  {
  }

  method ValidateNext(env: Env, q: Query, yearApplied: bool, r: Release, kept: seq<Release>, s: Stats,
                      ghost seen: seq<Release>)
      returns (kept': seq<Release>, s': Stats)
    requires yearApplied == q.AppliesYear() && Filtered(env, q, seen, kept, s)
    ensures Filtered(env, q, seen + [r], kept', s') && s'.final == s.final
  {
    var keep;
    keep, s' := Validate(env, q, yearApplied, r, s, Dropped(env, q, seen));
    BooksOneMore(env, q, seen, r, s, s');
    KeptOneMore(env, q, seen, r);
    kept' := kept;
    if keep {
      kept' := kept' + [r];
    }
  }

  lemma PresentNext(releases: seq<Option<Release>>, i: nat)
    requires i < |releases|
    ensures releases[i].None? ==> Present(releases[..i + 1]) == Present(releases[..i])
    ensures releases[i].Some? ==> Present(releases[..i + 1]) == Present(releases[..i]) + [releases[i].value]
  {
    assert releases[..i + 1][..i] == releases[..i];
  }

  /** Keeps exactly the releases that are judged so, in order, and says exactly what
      became of all of them. Other content passes as it came. */
  method ValidateSearchResults(env: Env, q: Query, releases: seq<Option<Release>>)
      returns (out: seq<Option<Release>>, s: Stats)
    ensures q.content == Other ==> out == releases && s == NO_STATS.(raw := |releases|, final := |releases|)
    ensures q.content != Other ==>
              && out == AllPresent(Kept(env, q, Present(releases)))
              && Books(env, q, Present(releases), s) && Recorded(q.recordDropped, Dropped(env, q, Present(releases)), s)
              && s.final == |out| && s.rejected == s.raw - s.final
  {
    s := NO_STATS;
    if q.content == Other {
      return releases, s.(raw := |releases|, final := |releases|);
    }
    var hasYear := AnyHasYear(q);
    var kept: seq<Release> := [];
    ghost var seen: seq<Release> := [];
    for i := 0 to |releases|
      invariant seen == Present(releases[..i]) && Filtered(env, q, seen, kept, s)
    {
      PresentNext(releases, i);
      if releases[i].Some? {
        kept, s := ValidateNext(env, q, q.enforceYear && hasYear, releases[i].value, kept, s, seen);
        seen := seen + [releases[i].value];
      }
    }
    assert releases[..|releases|] == releases;
    out := AllPresent(kept);
    s := s.(final := |out|);
    s := s.(rejected := s.raw - s.final);
  }

  // ---------------------------------------------------------------------------
  // The books balance

  function Drops(s: Stats): nat {
    s.droppedTitle + s.droppedEpisode + s.droppedSeason + s.droppedYear
  }

  function Acceptances(s: Stats): nat {
    s.exactEpisode + s.multiEpisode + s.seasonPack + s.completePack + s.seasonMatch
  }

  lemma {:induction false} DropsAddUp(env: Env, q: Query, seen: seq<Release>)
    ensures |Dropped(env, q, seen)| == Count(env, q, seen, Drop(Unparsed)) + Count(env, q, seen, Drop(WrongTitle))
              + Count(env, q, seen, Drop(WrongEpisode)) + Count(env, q, seen, Drop(WrongSeason))
                + Count(env, q, seen, Drop(WrongYear))
  {
    if seen != [] {
      DropsAddUp(env, q, seen[..|seen| - 1]);
    }
  }

  lemma {:induction false} KeepsAddUp(env: Env, q: Query, seen: seq<Release>)
    ensures |Kept(env, q, seen)| == Count(env, q, seen, Keep(ExactEpisode)) + Count(env, q, seen, Keep(MultiEpisode))
              + Count(env, q, seen, Keep(SeasonPack)) + Count(env, q, seen, Keep(CompletePack))
              + Count(env, q, seen, Keep(SeasonMatch)) + Count(env, q, seen, Keep(Uncounted))
  {
    if seen != [] {
      KeepsAddUp(env, q, seen[..|seen| - 1]);
    }
  }

  lemma {:induction false} KeptOrDropped(env: Env, q: Query, seen: seq<Release>)
    ensures |Kept(env, q, seen)| + |Dropped(env, q, seen)| == |seen|
  {
    if seen != [] {
      KeptOrDropped(env, q, seen[..|seen| - 1]);
    }
  }

  /** What came in is what came out plus the drops, reason by reason, and every drop is
      either recorded or counted as omitted. */
  lemma BooksBalance(env: Env, q: Query, seen: seq<Release>, s: Stats)
    requires Books(env, q, seen, s) && Recorded(q.recordDropped, Dropped(env, q, seen), s)
    ensures s.raw == |Kept(env, q, seen)| + Drops(s)
    ensures q.recordDropped > 0 ==> |s.dropped| + s.omitted == Drops(s) && |s.dropped| <= q.recordDropped
    ensures Acceptances(s) + Count(env, q, seen, Keep(Uncounted)) == |Kept(env, q, seen)|
  {
    DropsAddUp(env, q, seen);
    KeepsAddUp(env, q, seen);
    KeptOrDropped(env, q, seen);
  }

  lemma {:induction false} NobodyUncounted(env: Env, q: Query, seen: seq<Release>)
    requires forall r :: r in seen ==> Judge(env, q, r.title) != Keep(Uncounted)
    ensures Count(env, q, seen, Keep(Uncounted)) == 0
  {
    if seen != [] {
      NobodyUncounted(env, q, seen[..|seen| - 1]);
    }
  }

  lemma SeriesVerdicts(env: Env, q: Query, title: string)
    requires q.content == Series && (q.episode > 0 || !q.Seasonless())
    ensures Judge(env, q, title) != Keep(Uncounted)
  {
    var parsed := env.parse(title);
    if parsed.Some? {
      RankMeans(parsed.value, q.Wanted());
    }
  }

  /** In a series request that names a season or an episode, each accepted release is
      counted as exactly one kind. */
  lemma SeriesAcceptancesAddUp(env: Env, q: Query, seen: seq<Release>, s: Stats)
    requires q.content == Series && (q.episode > 0 || !q.Seasonless())
    requires Books(env, q, seen, s) && Recorded(q.recordDropped, Dropped(env, q, seen), s)
    ensures Acceptances(s) == |Kept(env, q, seen)|
  {
    forall r | r in seen ensures Judge(env, q, r.title) != Keep(Uncounted) {
      SeriesVerdicts(env, q, r.title);
    }
    NobodyUncounted(env, q, seen);
    BooksBalance(env, q, seen, s);
  }

  // ---------------------------------------------------------------------------
  // Two requests

  /** The same request, asking for at least as much. */
  ghost predicate Stricter(strict: Query, lax: Query) {
    && strict == lax.(enforceTitle := strict.enforceTitle, enforceYear := strict.enforceYear,
                      acceptPacks := strict.acceptPacks, recordDropped := strict.recordDropped)
    && (lax.enforceTitle ==> strict.enforceTitle)
    && (lax.enforceYear ==> strict.enforceYear)
    && (strict.acceptPacks ==> lax.acceptPacks)
  }

  ghost predicate Subsequence(a: seq<Release>, b: seq<Release>) {
    if a == [] then true
    else if b == [] then false
    else
      var m, n := |a| - 1, |b| - 1;
      (a[m] == b[n] && Subsequence(a[..m], b[..n])) || Subsequence(a, b[..n])
  }

  lemma StricterDropsMore(env: Env, strict: Query, lax: Query, title: string)
    requires Stricter(strict, lax) && Judge(env, strict, title).Keep?
    ensures Judge(env, lax, title) == Judge(env, strict, title)
  {
    var p := env.parse(title).value;
    assert strict.Wanted() == lax.Wanted();
    assert TitleFits(env, strict, p.title) == TitleFits(env, lax, p.title);
    assert YearFitsAny(strict, p.year) == YearFitsAny(lax, p.year);
  }

  lemma SubsequenceOneMore(a: seq<Release>, b: seq<Release>, r: Release)
    requires Subsequence(a, b)
    ensures Subsequence(a + [r], b + [r]) && Subsequence(a, b + [r])
  {
    assert (a + [r])[..|a|] == a && (b + [r])[..|b|] == b;
  }

  /** Enforcing the title or the year, or no longer accepting packs, leaves a
      subsequence of what was kept before. */
  lemma {:induction false} StricterKeepsASubsequence(env: Env, strict: Query, lax: Query, seen: seq<Release>)
    requires Stricter(strict, lax)
    ensures Subsequence(Kept(env, strict, seen), Kept(env, lax, seen))
  {
    if seen != [] {
      var n := |seen| - 1;
      StricterKeepsASubsequence(env, strict, lax, seen[..n]);
      SubsequenceOneMore(Kept(env, strict, seen[..n]), Kept(env, lax, seen[..n]), seen[n]);
      KeptLast(env, strict, seen);
      KeptLast(env, lax, seen);
      if Judge(env, strict, seen[n].title).Keep? {
        StricterDropsMore(env, strict, lax, seen[n].title);
      }
    }
  }

  // ---------------------------------------------------------------------------
  // What not accepting packs means

  /** Not accepting packs, an episode request keeps exactly the releases whose title
      and year pass where they are enforced and that name the episode, or, for anime,
      that do not rank, name no other episode and are no season's pack. */
  lemma WithoutPacks(env: Env, q: Query, title: string)
    requires q.Episodic() && q.episode > 0 && !q.acceptPacks
    ensures Judge(env, q, title).Keep? <==>
              env.parse(title).Some? &&
              var p := env.parse(title).value;
              var rank := RankFor(env, q, p, title);
              && (q.AppliesTitle() ==> TitleFits(env, q, p.title))
              && (q.AppliesYear() ==> YearFitsAny(q, p.year))
              && (|| (Names(p, q.Wanted()) && rank > 0)
                  || (q.content == Anime && rank == 0 && !NamesOther(env, p, title, q.Wanted(), q.ovaSeries)
                      && !IsSeasonOnly(p)))
  {
    if env.parse(title).Some? {
      RankMeans(env.parse(title).value, q.Wanted());
    }
  }

  /** For a series that is only releases that name the episode. */
  lemma SeriesWithoutPacksNamesTheEpisode(env: Env, q: Query, title: string)
    requires q.content == Series && q.episode > 0 && !q.acceptPacks && Judge(env, q, title).Keep?
    ensures Names(env.parse(title).value, q.Wanted())
  {
    WithoutPacks(env, q, title);
  }

  // A release name that carries no season, no episode and no date.
  predicate Unnumbered(p: Parsed) {
    p.seasons == [] && p.episodes == [] && p.episode == 0 && p.date == "" && !p.complete
  }

  /** For anime it is not: of the releases without a number, every one with the right
      title and year is kept, and none names the episode. */
  lemma AnimeWithoutPacksKeepsTheUnnumbered(env: Env, q: Query, title: string)
    requires q.content == Anime && q.episode > 0 && !q.acceptPacks
    requires env.parse(title).Some? && Unnumbered(env.parse(title).value) && env.ovaNumber(title) == None
    ensures var p := env.parse(title).value;
            && !Names(p, q.Wanted())
            && (Judge(env, q, title).Keep? <==>
                  (q.AppliesTitle() ==> TitleFits(env, q, p.title)) && (q.AppliesYear() ==> YearFitsAny(q, p.year)))
  {
    var p := env.parse(title).value;
    WithoutPacks(env, q, title);
    RankMeans(p, q.Wanted());
    assert !NamesOther(env, p, title, q.Wanted(), q.ovaSeries);
  }

  // ---------------------------------------------------------------------------
  // What the count of kept mismatches counts

  // What becomes of a release whose title does not fit where that is not enforced.
  datatype Fate = Stays | FailsNumber | FailsYear | FailsPack

  function FateOf(env: Env, q: Query, p: Parsed, title: string): Fate {
    if WrongNumber(env, q, p, title).Some? then FailsNumber
    else if q.AppliesYear() && !YearFitsAny(q, p.year) then FailsYear
    else if Placed(env, q, p, title).Drop? then FailsPack
    else Stays
  }

  predicate MismatchOf(env: Env, q: Query, title: string, fate: Fate) {
    Mismatch(env, q, title) && FateOf(env, q, env.parse(title).value, title) == fate
  }

  function CountFate(env: Env, q: Query, releases: seq<Release>, fate: Fate): nat {
    if releases == [] then 0
    else
      var n := |releases| - 1;
      CountFate(env, q, releases[..n], fate) + if MismatchOf(env, q, releases[n].title, fate) then 1 else 0
  }

  function KeptMismatches(env: Env, q: Query, releases: seq<Release>): nat {
    if releases == [] then 0
    else
      var n := |releases| - 1;
      var r := releases[n];
      KeptMismatches(env, q, releases[..n]) + if Mismatch(env, q, r.title) && Judge(env, q, r.title).Keep? then 1 else 0
  }

  lemma StaysIsKept(env: Env, q: Query, title: string)
    requires Mismatch(env, q, title)
    ensures Judge(env, q, title).Keep? <==> MismatchOf(env, q, title, Stays)
  {
  }

  lemma {:induction false} MismatchesAddUp(env: Env, q: Query, seen: seq<Release>)
    ensures CountFate(env, q, seen, Stays) == KeptMismatches(env, q, seen)
    ensures Mismatches(env, q, seen) == KeptMismatches(env, q, seen)
              + CountFate(env, q, seen, FailsNumber) + CountFate(env, q, seen, FailsYear)
                + CountFate(env, q, seen, FailsPack)
  {
    if seen != [] {
      var n := |seen| - 1;
      MismatchesAddUp(env, q, seen[..n]);
      if Mismatch(env, q, seen[n].title) {
        StaysIsKept(env, q, seen[n].title);
      }
    }
  }

  lemma {:induction false} NoneMeets(env: Env, q: Query, seen: seq<Release>, fate: Fate)
    ensures CountFate(env, q, seen, fate) == 0 <==> forall r :: r in seen ==> !MismatchOf(env, q, r.title, fate)
  {
    if seen != [] {
      var n := |seen| - 1;
      NoneMeets(env, q, seen[..n], fate);
      assert forall r :: r in seen <==> r in seen[..n] || r == seen[n];
    }
  }

  /** The count of kept title mismatches is taken before the later checks. It is the
      number of kept mismatches plus those dropped for their number, their year or as a
      pack, and so counts what is kept exactly when no mismatch fails one of these. */
  lemma MismatchKeptExactly(env: Env, q: Query, seen: seq<Release>, s: Stats)
    requires Books(env, q, seen, s)
    ensures s.mismatchKept == KeptMismatches(env, q, seen)
              + CountFate(env, q, seen, FailsNumber) + CountFate(env, q, seen, FailsYear)
                + CountFate(env, q, seen, FailsPack)
    ensures s.mismatchKept == KeptMismatches(env, q, seen) <==>
              forall r :: r in seen && Mismatch(env, q, r.title) ==>
                var p := env.parse(r.title).value;
                && WrongNumber(env, q, p, r.title).None?
                && (q.AppliesYear() ==> YearFitsAny(q, p.year))
                && Placed(env, q, p, r.title).Keep?
  {
    MismatchesAddUp(env, q, seen);
    NoneMeets(env, q, seen, FailsNumber);
    NoneMeets(env, q, seen, FailsYear);
    NoneMeets(env, q, seen, FailsPack);
    forall r | r in seen && Mismatch(env, q, r.title)
      ensures MismatchOf(env, q, r.title, Stays)
              <==> !MismatchOf(env, q, r.title, FailsNumber) && !MismatchOf(env, q, r.title, FailsYear)
                   && !MismatchOf(env, q, r.title, FailsPack)
    {
    }
  }

  /** So it counts every mistitled release that names another episode, and drops it. */
  lemma MismatchCountsTheDropped(env: Env, q: Query, title: string, season: int, episode: int)
    requires q.Episodic() && q.episode > 0 && !q.Seasonless() && q.absolute <= 0 && !q.enforceTitle
    requires env.parse(title).Some? && !TitleFits(env, q, env.parse(title).value.title)
    requires var p := env.parse(title).value; p.seasons == [season] && p.episodes == [episode] && p.episode == episode
    requires season != q.Season() || episode != q.episode
    requires q.content == Anime ==> !IsOva(env, env.parse(title).value, title)
    ensures Mismatch(env, q, title) && Judge(env, q, title) == Drop(WrongEpisode)
  {
    var p, t := env.parse(title).value, q.Wanted();
    assert !Names(p, t) && TargetRank(p, t) == 0;
    if q.content == Anime {
      assert NamesOther(env, p, title, t, q.ovaSeries);
    }
  }
}
