/** Steering fuzz seeds: padding that brings the byte sum of a source to a required value. */
module FuzzSeeds {
  import opened Results
  import opened FuzzSelectors

  // "\n/* profile " and " */\n"
  const PREFIX: Bytes := [10, 47, 42, 32, 112, 114, 111, 102, 105, 108, 101, 32]
  const SUFFIX: Bytes := [32, 42, 47, 10]

  const SPACE: Byte := 32
  const TAB: Byte := 9
  const LOWEST_BYTE: nat := 33

  /** The padding byte may be any printable byte but '*' and '/'. */
  predicate PaddingByte(b: int)
  {
    LOWEST_BYTE <= b < 127 && b != 42 && b != 47
  }

  datatype Padding = Padding(spaces: nat, last: Byte)

  /** The byte sum with some padding in place. */
  function PaddedSum(total: nat, padding: Padding): nat
  {
    total + 32 * padding.spaces + padding.last
  }

  /** The first acceptable padding byte, from b on, after some spaces. */
  function FirstByte(total: nat, accept: nat -> bool, spaces: nat, b: nat): (found: Option<Padding>)
    requires LOWEST_BYTE <= b <= 127
    ensures found.Some? ==>
      found.value.spaces == spaces && PaddingByte(found.value.last) && accept(PaddedSum(total, found.value))
    decreases 127 - b
  {
    if b == 127 then None
    else if PaddingByte(b) && accept(PaddedSum(total, Padding(spaces, b))) then Some(Padding(spaces, b))
    else FirstByte(total, accept, spaces, b + 1)
  }

  /** The first padding, by number of spaces and then by byte, with an acceptable sum. */
  function FirstPadding(total: nat, accept: nat -> bool, spaces: nat, limit: nat): (found: Option<Padding>)
    requires spaces <= limit
    ensures found.Some? ==>
      && spaces <= found.value.spaces < limit
      && 33 <= found.value.last <= 126 && found.value.last != 42 && found.value.last != 47
      && accept(PaddedSum(total, found.value))
    decreases limit - spaces
  {
    if spaces == limit then None
    else
      var found := FirstByte(total, accept, spaces, LOWEST_BYTE);
      if found.Some? then found else FirstPadding(total, accept, spaces + 1, limit)
  }

  lemma {:induction false} FirstByteFinds(total: nat, accept: nat -> bool, b: nat, p: Padding)
    requires LOWEST_BYTE <= b <= p.last && PaddingByte(p.last) && accept(PaddedSum(total, p))
    ensures FirstByte(total, accept, p.spaces, b).Some?
    decreases 127 - b
  {
    if b == p.last {
    } else {
      FirstByteFinds(total, accept, b + 1, p);
    }
  }

  lemma {:induction false} FirstPaddingFinds(total: nat, accept: nat -> bool, spaces: nat, limit: nat, k: nat)
    requires spaces <= k < limit && FirstByte(total, accept, k, LOWEST_BYTE).Some?
    ensures FirstPadding(total, accept, spaces, limit).Some?
    decreases limit - spaces
  {
    if spaces == k {
    } else {
      FirstPaddingFinds(total, accept, spaces + 1, limit, k);
    }
  }

  lemma {:induction false} FirstByteIsFirst(total: nat, accept: nat -> bool, b: nat, p: Padding)
    requires LOWEST_BYTE <= b <= p.last && PaddingByte(p.last) && FirstByte(total, accept, p.spaces, b).Some?
    requires p.last < FirstByte(total, accept, p.spaces, b).value.last
    ensures !accept(PaddedSum(total, p))
    decreases 127 - b
  {
    if b == p.last {
    } else {
      FirstByteIsFirst(total, accept, b + 1, p);
    }
  }

  /** The search returns the earliest acceptable padding, by number of spaces and then by the byte after them. */
  lemma {:induction false} FirstPaddingIsFirst(total: nat, accept: nat -> bool, spaces: nat, limit: nat, p: Padding)
    requires spaces <= p.spaces && spaces <= limit && 33 <= p.last <= 126 && p.last != 42 && p.last != 47
    requires FirstPadding(total, accept, spaces, limit).Some?
    requires
      var found := FirstPadding(total, accept, spaces, limit).value;
      p.spaces < found.spaces || (p.spaces == found.spaces && p.last < found.last)
    ensures !accept(PaddedSum(total, p))
    decreases limit - spaces
  {
    var found := FirstByte(total, accept, spaces, LOWEST_BYTE);
    if found.Some? {
      FirstByteIsFirst(total, accept, LOWEST_BYTE, p);
    } else if spaces < p.spaces {
      FirstPaddingIsFirst(total, accept, spaces + 1, limit, p);
    } else if accept(PaddedSum(total, p)) {
      FirstByteFinds(total, accept, LOWEST_BYTE, p);
    }
  }

  function Pad(data: Bytes, padding: Padding): Bytes
  {
    data + PREFIX + Repeat(SPACE, padding.spaces) + [padding.last] + SUFFIX
  }

  function Total(data: Bytes): nat
  {
    Sum(data + PREFIX) + Sum(SUFFIX)
  }

  lemma {:induction false} RepeatHolds(b: Byte, n: nat)
    ensures |Repeat(b, n)| == n && forall c | c in Repeat(b, n) :: c == b
  {
  }

  /** The padding goes between prefix and suffix, and contains neither '*' nor '/'. */
  lemma PaddingIsHarmless(data: Bytes, padding: Padding)
    requires padding.last != 42 && padding.last != 47
    ensures exists bytes: Bytes ::
      && Pad(data, padding) == data + PREFIX + bytes + SUFFIX
      && |bytes| == padding.spaces + 1 && 42 !in bytes && 47 !in bytes
  {
    var bytes := Repeat(SPACE, padding.spaces) + [padding.last];
    RepeatHolds(SPACE, padding.spaces);
    assert Pad(data, padding) == data + PREFIX + bytes + SUFFIX;
  }

  lemma SumOfPadded(data: Bytes, padding: Padding)
    ensures Sum(Pad(data, padding)) == PaddedSum(Total(data), padding)
    ensures |Pad(data, padding)| == |data| + 17 + padding.spaces
  {
    var spaces := Repeat(SPACE, padding.spaces);
    SumConcatenates(data + PREFIX, spaces);
    SumRepeats(SPACE, padding.spaces);
    SumConcatenates(data + PREFIX + spaces, [padding.last]);
    SumConcatenates(data + PREFIX + spaces + [padding.last], SUFFIX);
    assert Sum([padding.last]) == Sum([]) + padding.last;
  }

  /** The sum lies in a 256-block with the required index, at the required residue. */
  predicate Hits(s: nat, count: nat, residue: nat, blocks: nat, block: nat)
    requires count > 0 && blocks > 0
  {
    s % count == residue && s / 256 % blocks == block
  }

  function Accepts(count: nat, residue: nat, blocks: nat, block: nat): nat -> bool
    requires count > 0 && blocks > 0
  {
    (s: nat) => Hits(s, count, residue, blocks, block)
  }

  lemma ModOfShift(a: int, k: int, n: nat)
    requires n > 0
    ensures (a + k * n) % n == a % n
  {
    assert a == a / n * n + a % n;
    assert a + k * n == (a / n + k) * n + a % n;
    ModIsRemainder(a / n + k, a % n, n);
  }

  lemma ResidueWithin(start: nat, count: nat, residue: nat) returns (s: nat)
    requires residue < count
    ensures start <= s < start + count && s % count == residue
  {
    var d := (residue - start) % count;
    var k := (residue - start) / count;
    s := start + d;
    assert s == residue + (-k) * count;
    ModOfShift(residue, -k, count);
    ModIsRemainder(0, residue, count);
  }

  /** Any window of 256 * blocks + 30 sums has a hit, for residues of up to 143 values: the block
      occurs whole, or its two ends overlap the window in at least 143 values on one side. */
  lemma WindowHasHit(start: nat, count: nat, residue: nat, blocks: nat, block: nat) returns (s: nat)
    requires residue < count <= 143 && block < blocks
    ensures start <= s < start + 256 * blocks + 30 && Hits(s, count, residue, blocks, block)
  {
    var first, offset := start / 256, start % 256;
    var index := ResidueWithin(first, blocks, block);
    if index > first {
      s := ResidueWithin(256 * index, count, residue);
      assert s / 256 == index;
    } else if offset <= 113 {
      s := ResidueWithin(start, count, residue);
      assert s / 256 == first;
    } else {
      s := ResidueWithin(256 * (first + blocks), count, residue);
      assert s / 256 == first + blocks;
      ModOfShift(first, 1, blocks);
    }
  }

  /** The padding sums are an interval up to the largest one. */
  lemma PaddingReaches(x: nat, blocks: nat) returns (padding: Padding)
    requires blocks > 0 && 65 <= x <= 256 * blocks + 94
    ensures padding.spaces < 8 * blocks && PaddingByte(padding.last) && x == PaddedSum(0, padding)
  {
    var spaces := if (x - 65) / 32 < 8 * blocks then (x - 65) / 32 else 8 * blocks - 1;
    padding := Padding(spaces, x - 32 * spaces);
  }

  /** Padding always exists. */
  lemma PaddingExists(total: nat, accept: nat -> bool, limit: nat, count: nat, residue: nat, blocks: nat, block: nat)
    requires residue < count <= 143 && block < blocks && 8 * blocks <= limit
    requires forall s: nat | Hits(s, count, residue, blocks, block) :: accept(s)
    ensures FirstPadding(total, accept, 0, limit).Some?
  {
    var s := WindowHasHit(total + 65, count, residue, blocks, block);
    var padding := PaddingReaches(s - total, blocks);
    assert PaddedSum(total, padding) == s;
    FirstByteFinds(total, accept, LOWEST_BYTE, padding);
    FirstPaddingFinds(total, accept, 0, limit, padding.spaces);
  }

  // Profiles and language modes.

  function SeedProfile(data: Bytes, count: nat, profile: nat, modes: nat, mode: nat): Option<Bytes>
    requires count > 0 && modes > 0
  {
    var padding := FirstPadding(Total(data), Accepts(count, profile, modes, mode), 0, 8 * modes);
    if padding.Some? then Some(Pad(data, padding.value)) else None
  }

  /** The seeds, grouped by mode. */
  function SeedProfiles(data: Bytes, profiles: nat, modes: nat): Result<seq<seq<Option<Bytes>>>>
  {
    var count := if profiles == 0 then 1 else profiles;
    if modes !in {2, 4, 8} then Err("expected two, four, or eight language modes")
    else Ok(seq(modes, mode requires 0 <= mode < modes =>
      seq(count, profile requires 0 <= profile < count => SeedProfile(data, count, profile, modes, mode))))
  }

  /** Seeding profiles never fails to find padding, of at most 64 bytes and without '*' or '/', and
      every seed selects the profile it was made for, in a mode that agrees with the requested one. */
  lemma ProfileSeedDecodes(data: Bytes, count: nat, profile: nat, modes: nat, mode: nat, word: nat)
    requires profile < count <= 143 && modes in {2, 4, 8} && mode < modes
    requires 255 * (|data| + 80) < word
    ensures
      var seed := SeedProfile(data, count, profile, modes, mode);
      && seed.Some? && |seed.value| <= |data| + 80
      && (exists bytes: Bytes ::
            && seed.value == data + PREFIX + bytes + SUFFIX
            && |bytes| <= 8 * modes && 42 !in bytes && 47 !in bytes)
      && Indices(seed.value, count, word).0 == profile
      && Indices(seed.value, count, word).1 % modes == mode
      && (modes == 8 ==> Indices(seed.value, count, word) == (profile, mode))
  {
    var accept := Accepts(count, profile, modes, mode);
    PaddingExists(Total(data), accept, 8 * modes, count, profile, modes, mode);
    var padding := FirstPadding(Total(data), accept, 0, 8 * modes).value;
    SumOfPadded(data, padding);
    PaddingIsHarmless(data, padding);
    SelectorIsSum(Pad(data, padding), word);
    ModeOfBlock(Sum(Pad(data, padding)) / 256, modes);
  }

  lemma ModeOfBlock(block: nat, modes: nat)
    requires modes in {2, 4, 8}
    ensures block % 8 % modes == block % modes
  {
    if modes == 2 {
      assert block % 8 % 2 == block % 2;
    } else if modes == 4 {
      assert block % 8 % 4 == block % 4;
    }
  }

  /** There is one seed for every mode and every profile, or one in all if there are no profiles. With eight
      modes it selects exactly these; with fewer, the mode it selects agrees with the requested one. */
  lemma ProfileSeedsDecode(data: Bytes, profiles: nat, modes: nat, word: nat)
    requires profiles <= 143 && 255 * (|data| + 80) < word
    ensures
      var (seeds, count) := (SeedProfiles(data, profiles, modes), if profiles == 0 then 1 else profiles);
      && (seeds.Ok? <==> modes == 2 || modes == 4 || modes == 8)
      && (seeds.Ok? ==> |seeds.value| == modes && forall mode | 0 <= mode < modes ::
            |seeds.value[mode]| == count && forall profile | 0 <= profile < count ::
              SelectsBoth(seeds.value[mode][profile], count, profile, modes, mode, word))
  {
    var count := if profiles == 0 then 1 else profiles;
    if modes in {2, 4, 8} {
      forall profile: nat, mode: nat | profile < count && mode < modes
        ensures SelectsBoth(SeedProfile(data, count, profile, modes, mode), count, profile, modes, mode, word)
      {
        ProfileSeedDecodes(data, count, profile, modes, mode, word);
      }
    }
  }

  ghost predicate SelectsBoth(seed: Option<Bytes>, count: nat, profile: int, modes: nat, mode: int, word: nat)
    requires count > 0 && modes > 0 && word > 0
  {
    && seed.Some? && Indices(seed.value, count, word).0 == profile && Indices(seed.value, count, word).1 % modes == mode
    && (modes == 8 ==> Indices(seed.value, count, word).1 == mode)
  }

  // Preprocessor policies.

  datatype Policy = Policy(
    comments: nat, trigraphs: nat, dialect: nat, scope: nat, history: nat, redefine: nat, documentation: nat)
  {
    ghost predicate Valid()
    {
      && comments < 5 && trigraphs < 2 && dialect < 2 && scope < 2 && history < 2 && redefine < 2 && documentation < 3
    }

    /** What the seed's sum has to be modulo 64, and its block modulo 10. */
    function Residue(): nat
    {
      dialect + 2 * scope + 4 * history + 8 * redefine + 16 * documentation
    }

    function Block(): nat
    {
      2 * comments + trigraphs
    }

    /** The conditions of the search. */
    predicate Accepts(s: nat)
    {
      && s % 2 == dialect && s / 2 % 2 == scope && s / 4 % 2 == history && s / 8 % 2 == redefine
      && s / 16 % 4 == documentation && s / 256 % 2 == trigraphs && s / 512 % 5 == comments
    }

    function Test(): nat -> bool
    {
      (s: nat) => Accepts(s)
    }

    function Config(): PreprocessorConfig
      requires comments < 5
    {
      PreprocessorConfig(
        history != 0,
        if documentation == 0 then None else Some(documentation >= 2),
        if redefine == 0 then Strict else RecordAndReplace,
        if dialect == 0 then Gnu else Clang,
        trigraphs != 0,
        scope != 0,
        [Enabled, GnuC90, GnuC90Preprocessing, ClangC90, ClangC90Preprocessing][comments])
    }
  }

  /** The policy of the i-th seed: seven nested loops, documentation innermost. */
  function PolicyAt(i: nat): Policy
  {
    var redefines := i / 3;
    var histories := redefines / 2;
    var scopes := histories / 2;
    var dialects := scopes / 2;
    var trigraphs := dialects / 2;
    var comments := trigraphs / 2;
    Policy(comments, trigraphs % 2, dialects % 2, scopes % 2, histories % 2, redefines % 2, i % 3)
  }

  function SeedPolicy(data: Bytes, policy: Policy): Option<Bytes>
  {
    var padding := FirstPadding(Total(data), policy.Test(), 0, 81);
    if padding.Some? then Some(Pad(data, padding.value)) else None
  }

  function SeedPolicies(data: Bytes): seq<Option<Bytes>>
  {
    seq(480, i requires 0 <= i < 480 => SeedPolicy(data, PolicyAt(i)))
  }

  lemma HitIsAccepted(policy: Policy, s: nat)
    requires policy.Valid() && Hits(s, 64, policy.Residue(), 10, policy.Block())
    ensures policy.Accepts(s)
  {
    LowBits(policy, s);
    HighBits(policy, s);
  }

  lemma HighBits(policy: Policy, s: nat)
    requires policy.Valid() && s / 256 % 10 == policy.Block()
    ensures s / 256 % 2 == policy.trigraphs && s / 512 % 5 == policy.comments
  {
    var blocks := s / 256 / 10;
    var fives := 5 * blocks + policy.comments;
    ModIsRemainder(fives, policy.trigraphs, 2);
    ModIsRemainder(fives, 256 * policy.trigraphs + s % 256, 512);
    ModIsRemainder(blocks, policy.comments, 5);
  }

  lemma LowBits(policy: Policy, s: nat)
    requires policy.Valid() && s % 64 == policy.Residue()
    ensures s % 2 == policy.dialect && s / 2 % 2 == policy.scope && s / 4 % 2 == policy.history
    ensures s / 8 % 2 == policy.redefine && s / 16 % 4 == policy.documentation
  {
    var documentation := 4 * (s / 64) + policy.documentation;
    var redefine := 2 * documentation + policy.redefine;
    var history := 2 * redefine + policy.history;
    var scope := 2 * history + policy.scope;
    var low := policy.dialect + 2 * policy.scope;
    Bit(scope, policy.dialect, 1, 0, s);
    Bit(history, policy.scope, 2, policy.dialect, s);
    Bit(redefine, policy.history, 4, low, s);
    Bit(documentation, policy.redefine, 8, low + 4 * policy.history, s);
    ModIsRemainder(documentation, low + 4 * policy.history + 8 * policy.redefine, 16);
    ModIsRemainder(s / 64, policy.documentation, 4);
  }

  lemma Bit(rest: nat, bit: nat, weight: nat, low: nat, s: nat)
    requires low < weight && bit < 2 && s == (rest * 2 + bit) * weight + low
    ensures s / weight % 2 == bit
  {
    ModIsRemainder(rest * 2 + bit, low, weight);
    ModIsRemainder(rest, bit, 2);
  }

  /** A seed always exists, keeps the source in front, and configures the preprocessor as requested. */
  lemma PolicySeedDecodes(data: Bytes, policy: Policy, word: nat)
    requires policy.Valid() && 255 * (|data| + 97) < word
    ensures
      var seed := SeedPolicy(data, policy);
      && seed.Some? && |seed.value| <= |data| + 97
      && (exists bytes: Bytes ::
            && seed.value == data + PREFIX + bytes + SUFFIX
            && |bytes| <= 81 && 42 !in bytes && 47 !in bytes)
      && PreprocessorConfigOf(Selector(seed.value, word)) == policy.Config()
  {
    forall s: nat | Hits(s, 64, policy.Residue(), 10, policy.Block()) ensures policy.Test()(s) {
      HitIsAccepted(policy, s);
    }
    PaddingExists(Total(data), policy.Test(), 81, 64, policy.Residue(), 10, policy.Block());
    var padding := FirstPadding(Total(data), policy.Test(), 0, 81).value;
    SumOfPadded(data, padding);
    PaddingIsHarmless(data, padding);
    SelectorIsSum(Pad(data, padding), word);
  }

  lemma PolicyAtIsValid(i: nat)
    requires i < 480
    ensures PolicyAt(i).Valid()
  {
  }

  /** The 480 seeds select all 480 configurations... */
  lemma PolicySeedsDecode(data: Bytes, word: nat)
    requires 255 * (|data| + 97) < word
    ensures |SeedPolicies(data)| == 480
    ensures forall i | 0 <= i < 480 ::
      var seed := SeedPolicies(data)[i];
      seed.Some? && PolicyAt(i).Valid() && PreprocessorConfigOf(Selector(seed.value, word)) == PolicyAt(i).Config()
  {
    forall i | 0 <= i < 480
      ensures PolicyAt(i).Valid() && SeedPolicies(data)[i].Some?
      ensures PreprocessorConfigOf(Selector(SeedPolicies(data)[i].value, word)) == PolicyAt(i).Config()
    {
      PolicyAtIsValid(i);
      PolicySeedDecodes(data, PolicyAt(i), word);
    }
  }

  /** ...each exactly once. */
  lemma PoliciesCover(config: PreprocessorConfig)
    ensures exists i: nat :: i < 480 && PolicyAt(i).Valid() && PolicyAt(i).Config() == config
  {
    var policy := ConfigHasPolicy(config);
    var i := PolicyIndex(policy);
  }

  lemma ConfigHasPolicy(config: PreprocessorConfig) returns (policy: Policy)
    ensures policy.Valid() && policy.Config() == config
  {
    var comments := match config.lineComments
      case Enabled => 0 case GnuC90 => 1 case GnuC90Preprocessing => 2 case ClangC90 => 3 case ClangC90Preprocessing => 4;
    var documentation := match config.documentation case None => 0 case Some(all) => if all then 2 else 1;
    policy := Policy(comments, if config.trigraphs then 1 else 0, if config.queries.Clang? then 1 else 0,
                     if config.scopePunctuator then 1 else 0, if config.recordMacroDefinitions then 1 else 0,
                     if config.redefinition.RecordAndReplace? then 1 else 0, documentation);
  }

  lemma PolicyIndex(policy: Policy) returns (i: nat)
    requires policy.Valid()
    ensures i < 480 && PolicyAt(i) == policy
  {
    var trigraphs := 2 * policy.comments + policy.trigraphs;
    var dialects := 2 * trigraphs + policy.dialect;
    var scopes := 2 * dialects + policy.scope;
    var histories := 2 * scopes + policy.history;
    var redefines := 2 * histories + policy.redefine;
    i := 3 * redefines + policy.documentation;
    ModIsRemainder(policy.comments, policy.trigraphs, 2);
    ModIsRemainder(trigraphs, policy.dialect, 2);
    ModIsRemainder(dialects, policy.scope, 2);
    ModIsRemainder(scopes, policy.history, 2);
    ModIsRemainder(histories, policy.redefine, 2);
    ModIsRemainder(redefines, policy.documentation, 3);
  }

  lemma PoliciesAreDistinct(i: nat, j: nat)
    requires i < 480 && j < 480 && PolicyAt(i).Valid() && PolicyAt(j).Valid()
    requires PolicyAt(i).Config() == PolicyAt(j).Config()
    ensures i == j
  {
    ConfigDetermines(PolicyAt(i), PolicyAt(j));
    PolicyDigits(i);
    PolicyDigits(j);
  }

  lemma ConfigDetermines(p: Policy, q: Policy)
    requires p.Valid() && q.Valid() && p.Config() == q.Config()
    ensures p == q
  {
  }

  lemma PolicyDigits(i: nat)
    ensures i == NumberOf(PolicyAt(i))
  {
  }

  ghost function NumberOf(p: Policy): nat
  {
    3 * (2 * (2 * (2 * (2 * (2 * p.comments + p.trigraphs) + p.dialect) + p.scope) + p.history) + p.redefine) + p.documentation
  }

  // Parser settings.

  function SeedParserSetting(data: Bytes, setting: nat): Bytes
  {
    var prefix := data + [10];
    prefix + Repeat(TAB, Tabs(setting, Sum(prefix)))
  }

  function Tabs(setting: nat, sum: nat): nat
  {
    (setting - sum) * 57 % 64
  }

  /** Each of the 64 settings has a seed, by the inverse of nine modulo 64. */
  lemma ParserSeedDecodes(data: Bytes, setting: nat, word: nat)
    requires setting < 64 && 255 * (|data| + 64) < word
    ensures data <= SeedParserSetting(data, setting)
    ensures Selector(SeedParserSetting(data, setting), word) % 64 == setting
    ensures ParserConfigOf(Selector(SeedParserSetting(data, setting), word)) == ParserConfigOf(setting)
  {
    var prefix := data + [10];
    var tabs := Tabs(setting, Sum(prefix));
    SumConcatenates(prefix, Repeat(TAB, tabs));
    SumRepeats(TAB, tabs);
    SelectorIsSum(SeedParserSetting(data, setting), word);
    TabsReach(setting, Sum(prefix));
    SettingDecides(Sum(prefix) + 9 * tabs, setting);
  }

  /** Nine times fifty-seven is one modulo 64. */
  lemma TabsReach(setting: nat, sum: nat)
    requires setting < 64
    ensures (sum + 9 * Tabs(setting, sum)) % 64 == setting
  {
    var t := (setting - sum) * 57;
    assert sum + 9 * (t % 64) == setting + 64 * (8 * (setting - sum) - 9 * (t / 64));
  }

  lemma SettingDecides(selector: nat, setting: nat)
    requires selector % 64 == setting
    ensures ParserConfigOf(selector) == ParserConfigOf(setting)
  {
    SettingBits(selector / 64, setting);
  }

  lemma SettingBits(k: nat, setting: nat)
    requires setting < 64
    ensures
      var selector := 64 * k + setting;
      && selector % 4 == setting % 4 && selector / 4 % 4 == setting / 4 % 4
      && selector / 16 % 2 == setting / 16 % 2 && selector / 32 % 2 == setting / 32 % 2
  {
    assert (64 * k + setting) / 4 == 16 * k + setting / 4;
    assert (64 * k + setting) / 16 == 4 * k + setting / 16;
    assert (64 * k + setting) / 32 == 2 * k + setting / 32;
  }

  /** The setting of a configuration: two bits for the flavor, two for the standard, and one each for the GNU
      keywords and the Microsoft extensions. */
  function SettingOf(config: ParserConfig): nat
  {
    var flavor := match config.flavor
      case StdC11 => 0 case GnuC11 => 1 case ClangC11 => 2 case GnuC11WithClangExtensions => 3;
    var standard := match config.standard case C90 => 0 case C99 => 1 case C11 => 2 case C17 => 3;
    flavor + 4 * (standard + 4 * ((if config.gnuKeywords then 1 else 0) + 2 * if config.extensionsMsvc then 1 else 0))
  }

  /** Every parser configuration is that of its setting... */
  lemma ParserSettingsCover(config: ParserConfig)
    ensures SettingOf(config) < 64 && ParserConfigOf(SettingOf(config)) == config
  {
    var flavor := match config.flavor
      case StdC11 => 0 case GnuC11 => 1 case ClangC11 => 2 case GnuC11WithClangExtensions => 3;
    var standard := match config.standard case C90 => 0 case C99 => 1 case C11 => 2 case C17 => 3;
    var gnu, msvc := if config.gnuKeywords then 1 else 0, if config.extensionsMsvc then 1 else 0;
    var setting: nat := flavor + 4 * (standard + 4 * (gnu + 2 * msvc));
    assert setting == SettingOf(config);
    assert setting / 4 == standard + 4 * (gnu + 2 * msvc) && setting / 16 == gnu + 2 * msvc && setting / 32 == msvc;
  }

  /** ...so every configuration has a seed that selects it... */
  lemma ParserSeedsCover(data: Bytes, config: ParserConfig, word: nat)
    requires 255 * (|data| + 64) < word
    ensures ParserConfigOf(Selector(SeedParserSetting(data, SettingOf(config)), word)) == config
  {
    ParserSettingsCover(config);
    ParserSeedDecodes(data, SettingOf(config), word);
  }

  /** ...and of only one. */
  lemma ParserSettingsAreDistinct(s: nat, t: nat)
    requires s < 64 && t < 64 && ParserConfigOf(s) == ParserConfigOf(t)
    ensures s == t
  {
    FlavorDetermines(s % 4, t % 4);
    StandardDetermines(s / 4 % 4, t / 4 % 4);
    Digits(s);
    Digits(t);
  }

  lemma FlavorDetermines(x: nat, y: nat)
    requires x < 4 && y < 4
    ensures
      var flavors := [StdC11, GnuC11, ClangC11, GnuC11WithClangExtensions];
      flavors[x] == flavors[y] ==> x == y
  {
  }

  lemma StandardDetermines(x: nat, y: nat)
    requires x < 4 && y < 4
    ensures
      var standards := [C90, C99, C11, C17];
      standards[x] == standards[y] ==> x == y
  {
  }

  lemma Digits(s: nat)
    requires s < 64
    ensures s == s % 4 + 4 * (s / 4 % 4) + 16 * (s / 16 % 2) + 32 * (s / 32 % 2)
  {
    assert s / 4 == 4 * (s / 16) + s / 4 % 4;
    assert s / 16 == 2 * (s / 32) + s / 16 % 2;
  }
}
