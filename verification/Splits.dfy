/** Assignment of whole episodes to train, validation and test. */
module Splits {
  import opened Common

  datatype Split = Train | Validation | Test

  function Rank(s: Split): nat {
    match s case Train => 0 case Validation => 1 case Test => 2
  }

  /** The `ratios` entry: absent or empty, of another type than a mapping, or a mapping. */
  datatype RatioEntry = Default | NoMapping | Given(train: real, validation: real)

  /** `assignments` is None when it is not a mapping (an empty mapping is one); a boundary is None when absent
      or empty. Boundaries are milliseconds; `bucket` is the seeded hash of an episode name. */
  datatype SplitConfig =
    | Explicit(assignments: Option<map<string, string>>)
    | Temporal(trainEnd: Option<int>, validationEnd: Option<int>)
    | EpisodeHash(ratios: RatioEntry, bucket: string -> real)
    | Unsupported

  datatype SplitError =
    | MissingAssignments | BadAssignment
    | MissingBoundaries | BoundariesNotIncreasing | MissingEpisodeEnd
    | TooFewEpisodes | RatiosNoMapping | BadRatios
    | UnsupportedStrategy

  type Assignment = map<string, Split>

  function ParseSplit(name: string): Option<Split> {
    if name == "train" then Some(Train)
    else if name == "validation" then Some(Validation)
    else if name == "test" then Some(Test)
    else None
  }

  function Ratios(config: SplitConfig): (real, real)
    requires config.EpisodeHash?
  {
    if config.ratios.Given? then (config.ratios.train, config.ratios.validation) else (0.7, 0.15)
  }

  /** What makes a configuration unusable before any episode is looked at. */
  function ConfigError(config: SplitConfig, episodes: nat): Option<SplitError> {
    match config
    case Explicit(assignments) => if assignments.None? then Some(MissingAssignments) else None
    case Temporal(trainEnd, validationEnd) =>
      if trainEnd.None? || validationEnd.None? then Some(MissingBoundaries)
      else if validationEnd.value <= trainEnd.value then Some(BoundariesNotIncreasing)
      else None
    case EpisodeHash(_, _) =>
      var (train, validation) := Ratios(config);
      if episodes < 3 then Some(TooFewEpisodes)
      else if config.ratios.NoMapping? then Some(RatiosNoMapping)
      else if train <= 0.0 || validation < 0.0 || train + validation >= 1.0 then Some(BadRatios)
      else None
    case Unsupported => Some(UnsupportedStrategy)
  }

  /** The split of one episode; `ends` holds the last timestamp of each episode. */
  function Decide(config: SplitConfig, ends: map<string, int>, episode: string): Result<Split, SplitError>
    requires ConfigError(config, 3).None?
  {
    match config
    case Explicit(assignments) =>
      var name := if episode in assignments.value then assignments.value[episode] else "";
      if ParseSplit(name).Some? then Ok(ParseSplit(name).value) else Err(BadAssignment)
    case Temporal(trainEnd, validationEnd) =>
      var end := if episode in ends then ends[episode] else -1;
      if end < 0 then Err(MissingEpisodeEnd)
      else if end <= trainEnd.value then Ok(Train)
      else if end <= validationEnd.value then Ok(Validation)
      else Ok(Test)
    case EpisodeHash(_, bucket) =>
      var (train, validation) := Ratios(config);
      if bucket(episode) < train then Ok(Train)
      else if bucket(episode) < train + validation then Ok(Validation)
      else Ok(Test)
  }

  /** m is the outcome for these episodes: each gets its decided split, or one that cannot be
      decided rejects them all. */
  ghost predicate IsAssignment(episodes: seq<string>, config: SplitConfig, ends: map<string, int>,
                               r: Result<Assignment, SplitError>)
  {
    match ConfigError(config, |episodes|)
    case Some(error) => r == Err(error)
    case None =>
      match r
      case Ok(m) => m.Keys == (set e | e in episodes) && forall e | e in episodes :: Decide(config, ends, e) == Ok(m[e])
      case Err(error) => exists e | e in episodes :: Decide(config, ends, e) == Err(error)
  }

  method AssignSplits(episodes: seq<string>, config: SplitConfig, ends: map<string, int>)
    returns (r: Result<Assignment, SplitError>)
    ensures IsAssignment(episodes, config, ends, r)
  {
    var error := ConfigError(config, |episodes|);
    if error.Some? { return Err(error.value); }
    var result: Assignment := map[];
    for i := 0 to |episodes|
      invariant result.Keys == (set e | e in episodes[..i])
      invariant forall e | e in result :: Decide(config, ends, e) == Ok(result[e])
    {
      var decision := Decide(config, ends, episodes[i]);
      match decision {
        case Err(reason) => return Err(reason);
        case Ok(split) => result := result[episodes[i] := split];
      }
      assert episodes[..i + 1] == episodes[..i] + [episodes[i]];
    }
    assert episodes[..|episodes|] == episodes;
    return Ok(result);
  }

  /** Later-ending episodes never move to an earlier split, and the split says on which side
      of each boundary the episode ends. */
  lemma TemporalFollowsTime(episodes: seq<string>, config: SplitConfig, ends: map<string, int>, m: Assignment)
    requires config.Temporal? && IsAssignment(episodes, config, ends, Ok(m))
    ensures forall e | e in m :: e in ends && ends[e] >= 0
    ensures forall e, f | e in m && f in m && ends[e] <= ends[f] :: Rank(m[e]) <= Rank(m[f])
    ensures forall e | e in m :: (m[e] == Train <==> ends[e] <= config.trainEnd.value)
    ensures forall e | e in m :: (m[e] == Test <==> config.validationEnd.value < ends[e])
  {
    forall e | e in m
      ensures e in ends && ends[e] >= 0
      ensures Decide(config, ends, e) == Ok(m[e])
    {
      assert e in episodes;
    }
  }

  /** Explicit splits are the assigned texts. */
  lemma ExplicitFollowsTexts(episodes: seq<string>, config: SplitConfig, ends: map<string, int>, m: Assignment, e: string)
    requires config.Explicit? && IsAssignment(episodes, config, ends, Ok(m)) && e in episodes
    ensures config.assignments.Some? && e in config.assignments.value && e in m
    ensures m[e] == Train <==> config.assignments.value[e] == "train"
    ensures m[e] == Validation <==> config.assignments.value[e] == "validation"
    ensures m[e] == Test <==> config.assignments.value[e] == "test"
  {
    assert Decide(config, ends, e) == Ok(m[e]);
    assert "train" != "validation" && |"test"| != |"train"|;
  }

  /** Hash splits cut the unit interval at the training ratio and at the sum of both ratios, 0.7 and 0.85
      where none are given. */
  lemma HashFollowsBucket(episodes: seq<string>, config: SplitConfig, ends: map<string, int>, m: Assignment, e: string)
    requires config.EpisodeHash? && IsAssignment(episodes, config, ends, Ok(m)) && e in episodes
    ensures e in m && !config.ratios.NoMapping?
    ensures var (first, second) := if config.ratios.Given? then (config.ratios.train, config.ratios.train + config.ratios.validation)
                                   else (0.7, 0.85);
            && 0.0 < first <= second < 1.0
            && (m[e] == Train <==> config.bucket(e) < first)
            && (m[e] == Test <==> second <= config.bucket(e))
  {
    assert Decide(config, ends, e) == Ok(m[e]);
  }

  /** What a configuration must give whatever the episodes are called. */
  predicate Usable(config: SplitConfig, episodes: nat) {
    match config
    case Explicit(assignments) => assignments.Some?
    case Temporal(trainEnd, validationEnd) => trainEnd.Some? && validationEnd.Some? && trainEnd.value < validationEnd.value
    case EpisodeHash(ratios, _) =>
      && 3 <= episodes && !ratios.NoMapping?
      && (ratios.Given? ==> 0.0 < ratios.train && 0.0 <= ratios.validation && ratios.train + ratios.validation < 1.0)
    case Unsupported => false
  }

  /** What it must give for one episode. */
  predicate Assignable(config: SplitConfig, ends: map<string, int>, episode: string)
    requires config.Explicit? ==> config.assignments.Some?
  {
    match config
    case Explicit(assignments) =>
      && episode in assignments.value
      && var text := assignments.value[episode];
      text == "train" || text == "validation" || text == "test"
    case Temporal(_, _) => episode in ends && 0 <= ends[episode]
    case _ => true
  }

  lemma DecidesIff(config: SplitConfig, ends: map<string, int>, episode: string)
    requires ConfigError(config, 3).None?
    ensures Decide(config, ends, episode).Ok? <==> Assignable(config, ends, episode)
  {
  }

  /** Which configurations assign every episode. */
  lemma SplitsSucceedIff(episodes: seq<string>, config: SplitConfig, ends: map<string, int>)
    ensures (exists m :: IsAssignment(episodes, config, ends, Ok(m)))
            <==> Usable(config, |episodes|) && forall e | e in episodes :: Assignable(config, ends, e)
  {
    assert Usable(config, |episodes|) <==> ConfigError(config, |episodes|).None?;
    if Usable(config, |episodes|) {
      forall e ensures Decide(config, ends, e).Ok? <==> Assignable(config, ends, e) { DecidesIff(config, ends, e); }
      if forall e | e in episodes :: Assignable(config, ends, e) {
        var m := map e | e in episodes :: Decide(config, ends, e).value;
        assert IsAssignment(episodes, config, ends, Ok(m));
      }
    }
  }

  /** And what a refusal says is so. */
  lemma RefusalsSayWhy(episodes: seq<string>, config: SplitConfig, ends: map<string, int>, error: SplitError)
    requires IsAssignment(episodes, config, ends, Err(error))
    ensures match error
            case MissingAssignments => config.Explicit? && config.assignments.None?
            case BadAssignment => config.Explicit? && exists e | e in episodes :: !Assignable(config, ends, e)
            case MissingBoundaries => config.Temporal? && (config.trainEnd.None? || config.validationEnd.None?)
            case BoundariesNotIncreasing => config.Temporal? && config.trainEnd.Some? && config.validationEnd.Some?
                                            && config.validationEnd.value <= config.trainEnd.value
            case MissingEpisodeEnd => config.Temporal? && exists e | e in episodes :: !Assignable(config, ends, e)
            case TooFewEpisodes => config.EpisodeHash? && |episodes| < 3
            case RatiosNoMapping => config.EpisodeHash? && config.ratios.NoMapping?
            case BadRatios => config.EpisodeHash? && config.ratios.Given?
            case UnsupportedStrategy => config.Unsupported?
  {
    if ConfigError(config, |episodes|).None? {
      var e :| e in episodes && Decide(config, ends, e) == Err(error);
      DecidesIff(config, ends, e);
    }
  }

  /** A hash split depends on the episode alone: other episodes, their order and their times
      make no difference. */
  lemma HashIgnoresOtherEpisodes(es: seq<string>, fs: seq<string>, config: SplitConfig,
                                 ends: map<string, int>, ends': map<string, int>,
                                 m: Assignment, n: Assignment, episode: string)
    requires config.EpisodeHash? && episode in es && episode in fs
    requires IsAssignment(es, config, ends, Ok(m)) && IsAssignment(fs, config, ends', Ok(n))
    ensures m[episode] == n[episode]
  {
    assert Decide(config, ends, episode) == Ok(m[episode]);
    assert Decide(config, ends', episode) == Ok(n[episode]);
  }

  /** The outcome is determined: at most one result satisfies the specification, because all
      undecidable episodes fail for the same reason. */
  lemma AssignmentIsUnique(episodes: seq<string>, config: SplitConfig, ends: map<string, int>,
                           r: Result<Assignment, SplitError>, s: Result<Assignment, SplitError>)
    requires IsAssignment(episodes, config, ends, r) && IsAssignment(episodes, config, ends, s)
    ensures r == s
  {
    if r.Ok? && s.Ok? {
      forall e | e in r.value ensures r.value[e] == s.value[e] {
        assert Decide(config, ends, e) == Ok(r.value[e]);
      }
      assert r.value == s.value;
    }
  }
}
