/**
 * `AniSort.parse` of `ani_sort/core.py`: the ordered pattern rules, the first of which that
 * finds a match in a file name decides its season and episode.
 *
 * Each rule's regular expression is abstract: a search function that returns the whole match
 * and its numbered groups, a group being `None` when it did not take part in the match.
 */
module Parser {
  import opened Results
  import opened Strings
  import opened Templates

  /** The `type` of a pattern rule; every other value behaves like a label. */
  datatype Kind = SeEp | Ep | Label | OtherKind

  /** `re.Match`: the whole match and groups 1, 2, ... of the pattern. */
  datatype Found = Found(whole: string, groups: seq<Option<string>>)

  /** A configured rule: its type, its compiled regex and its optional `normalize` template. */
  datatype Rule = Rule(kind: Kind, search: string -> Option<Found>, template: Option<seq<Piece>>)

  /** The dictionary `parse` returns, less the keys it copies from the rule. */
  datatype Parsed = Parsed(rule: Rule, season: string, episode: string, rawMatch: string,
                           match1: Option<string>)

  /** `match[k]`: `IndexError` for a group the pattern does not have. */
  function Group(f: Found, k: nat): (r: Result<Option<string>, PyError>)
    requires k >= 1
    ensures r.Ok? <==> k <= |f.groups|
    ensures r.Ok? ==> r.value == f.groups[k - 1]
  {
    if k <= |f.groups| then Ok(f.groups[k - 1]) else Err(IndexError)
  }

  /**
   * The season number and the episode text a rule reads from its match. `int()` of a group
   * that did not match raises `TypeError`, of a non-numeral `ValueError`; an episode group
   * that did not match raises `TypeError` when the zero test applies `re.match` to it.
   */
  function Tokens(kind: Kind, f: Found, runSeason: int): Result<(int, string), PyError> {
    match kind
    case SeEp =>
      var g1 :- Group(f, 1);
      if g1.None? then Err(TypeError)
      else if PyInt(g1.value).None? then Err(ValueError)
      else
        var g2 :- Group(f, 2);
        if g2.None? then Err(TypeError) else Ok((PyInt(g1.value).value, g2.value))
    case Ep =>
      var g1 :- Group(f, 1);
      if g1.None? then Err(TypeError) else Ok((runSeason, g1.value))
    case _ =>
      var g2 :- Group(f, 2);
      Ok((runSeason, if g2.None? || g2.value == "" then "1" else g2.value))
  }

  /**
   * The episode-0 test: `re.match(r"(\d+)(?:[v|_]\d+){0,1}", token)` succeeds and its first
   * group has value 0. The optional tail never changes the first group, which is the whole
   * leading run of digits.
   */
  predicate IsZeroEpisode(token: string) {
    var lead := LeadingDigits(token);
    |lead| > 0 && DecimalValue(lead) == 0
  }

  /**
   * The episode text stored in the result: an all-digit token is its value padded to two
   * digits, any other token keeps what precedes its first `v`.
   */
  function Episode(token: string): (e: string)
    ensures IsDigits(token) ==>
      IsDigits(e) && |e| >= 2 && DecimalValue(e) == DecimalValue(token) && (|e| > 2 ==> e[0] != '0')
    ensures !IsDigits(token) ==>
      (|e| <= |token| && e == token[..|e|] && 'v' !in e && (|e| < |token| ==> token[|e|] == 'v'))
  {
    if IsDigits(token) then
      PyIntOfDigits(token);
      Pad2(PyInt(token).value)
    else Before(token, 'v')
  }

  /** What a rule that matched gives: a result, `None` for episode 0, or the exception raised. */
  function Build(r: Rule, f: Found, runSeason: int): Result<Option<Parsed>, PyError> {
    var (season, token) :- Tokens(r.kind, f, runSeason);
    if IsZeroEpisode(token) then Ok(None)
    else
      var m1 :- Group(f, 1);
      Ok(Some(Parsed(r, Pad2(season), Episode(token), f.whole, m1)))
  }

  /** `parse(name)`: the first rule whose search succeeds decides; `None` if none does. */
  function Parse(rules: seq<Rule>, runSeason: int, name: string): Result<Option<Parsed>, PyError> {
    if rules == [] then Ok(None)
    else match rules[0].search(name)
      case Some(f) => Build(rules[0], f, runSeason)
      case None => Parse(rules[1..], runSeason, name)
  }

  /** Rule `i` is the first whose search succeeds on `name`. */
  predicate FirstMatch(rules: seq<Rule>, name: string, i: nat) {
    && i < |rules| && rules[i].search(name).Some?
    && forall j :: 0 <= j < i ==> rules[j].search(name).None?
  }

  /** The first matching rule alone decides the result. */
  lemma {:induction false} ParseFirstMatch(rules: seq<Rule>, runSeason: int, name: string, i: nat)
    requires FirstMatch(rules, name, i)
    ensures Parse(rules, runSeason, name) == Build(rules[i], rules[i].search(name).value, runSeason)
  {
    if i > 0 {
      assert rules[0].search(name).None?;
      assert FirstMatch(rules[1..], name, i - 1) by {
        forall j | 0 <= j < i - 1 ensures rules[1..][j].search(name).None? {
          assert rules[1..][j] == rules[j + 1];
        }
      }
      ParseFirstMatch(rules[1..], runSeason, name, i - 1);
    }
  }

  /** When no rule finds a match the result is `None`. */
  lemma {:induction false} ParseNoMatch(rules: seq<Rule>, runSeason: int, name: string)
    requires forall j :: 0 <= j < |rules| ==> rules[j].search(name).None?
    ensures Parse(rules, runSeason, name) == Ok(None)
  {
    if rules != [] {
      assert forall j :: 0 <= j < |rules| - 1 ==> rules[1..][j] == rules[j + 1];
      ParseNoMatch(rules[1..], runSeason, name);
    }
  }

  /** Rules after one that matches are never consulted, whatever they would match. */
  lemma {:induction false} ParseIgnoresLater(rules: seq<Rule>, later: seq<Rule>, runSeason: int, name: string)
    requires exists j :: 0 <= j < |rules| && rules[j].search(name).Some?
    ensures Parse(rules + later, runSeason, name) == Parse(rules, runSeason, name)
  {
    if rules[0].search(name).None? {
      assert (rules + later)[1..] == rules[1..] + later;
      var j :| 0 <= j < |rules| && rules[j].search(name).Some?;
      assert rules[1..][j - 1] == rules[j];
      ParseIgnoresLater(rules[1..], later, runSeason, name);
    }
  }

  /**
   * The season and episode of a result follow the rule's kind: an `SE_EP` rule reads the
   * season from group 1 and the episode from group 2, an `EP` rule the episode from group 1
   * and other kinds from group 2, or `"1"` where that group is empty; the season of other
   * kinds is the run's season. Both are padded as `02d` prescribes.
   */
  lemma BuildFields(r: Rule, f: Found, runSeason: int)
    requires Build(r, f, runSeason).Ok? && Build(r, f, runSeason).value.Some?
    ensures var p := Build(r, f, runSeason).value.value;
      && p.rule == r && p.rawMatch == f.whole && |f.groups| >= 1 && p.match1 == f.groups[0]
      && (r.kind == SeEp ==>
            |f.groups| >= 2 && f.groups[0].Some? && f.groups[1].Some?
            && PyInt(f.groups[0].value).Some?
            && p.season == Pad2(PyInt(f.groups[0].value).value)
            && p.episode == Episode(f.groups[1].value))
      && (r.kind == Ep ==>
            f.groups[0].Some? && p.season == Pad2(runSeason) && p.episode == Episode(f.groups[0].value))
      && (r.kind != SeEp && r.kind != Ep ==>
            |f.groups| >= 2 && p.season == Pad2(runSeason)
            && p.episode == Episode(if f.groups[1].None? || f.groups[1].value == "" then "1"
                                    else f.groups[1].value))
  {
  }

  /** The first `k` characters of `token` are zeros and no digit follows them. */
  predicate ZeroRun(token: string, k: int) {
    0 < k <= |token| && (forall i :: 0 <= i < k ==> token[i] == '0')
    && (k == |token| || !IsDigit(token[k]))
  }

  /** A leading run of zeros that no further digit follows: the shape of an episode-0 token. */
  predicate ZeroLed(token: string) {
    exists k :: 0 < k <= |token| && ZeroRun(token, k)
  }

  /** The episode-0 test holds exactly for tokens led by zeros and nothing but zeros. */
  lemma ZeroEpisodeShape(token: string)
    ensures IsZeroEpisode(token) <==> ZeroLed(token)
  {
    if IsZeroEpisode(token) {
      ZeroEpisodeIsZeroLed(token);
    }
    if ZeroLed(token) {
      ZeroLedIsZeroEpisode(token);
    }
  }

  lemma ZeroEpisodeIsZeroLed(token: string)
    requires IsZeroEpisode(token)
    ensures ZeroLed(token)
  {
    var lead := LeadingDigits(token);
    ZeroValue(lead);
    var k := |lead|;
    assert forall i :: 0 <= i < k ==> token[i] == lead[i];
    assert ZeroRun(token, k);
  }

  lemma ZeroLedIsZeroEpisode(token: string)
    requires ZeroLed(token)
    ensures IsZeroEpisode(token)
  {
    var k :| 0 < k <= |token| && ZeroRun(token, k);
    assert (forall i :: 0 <= i < k ==> token[i] == '0') && (k == |token| || !IsDigit(token[k]));
    LeadingDigitsOfZeros(token, k);
    var lead := LeadingDigits(token);
    assert lead == token[..k];
    assert forall i :: 0 <= i < |lead| ==> lead[i] == '0';
    ZeroValue(lead);
  }

  lemma {:induction false} LeadingDigitsOfZeros(token: string, k: nat)
    requires 0 < k <= |token| && (forall i :: 0 <= i < k ==> token[i] == '0')
    requires k == |token| || !IsDigit(token[k])
    ensures LeadingDigits(token) == token[..k]
    decreases k
  {
    if k > 1 {
      LeadingDigitsOfZeros(token[1..], k - 1);
      assert token[..k] == [token[0]] + token[1..][..k - 1];
    }
  }

  /**
   * A rule that matched gives `None` exactly when the episode token passes the episode-0
   * test; otherwise it gives a result or raises.
   */
  lemma BuildSuppressed(r: Rule, f: Found, runSeason: int)
    ensures Build(r, f, runSeason) == Ok(None) <==>
      Tokens(r.kind, f, runSeason).Ok? && ZeroLed(Tokens(r.kind, f, runSeason).value.1)
  {
    if Tokens(r.kind, f, runSeason).Ok? {
      ZeroEpisodeShape(Tokens(r.kind, f, runSeason).value.1);
    }
  }

  /** A two-digit numeric episode is already normal. */
  lemma EpisodeOfTwoDigits(token: string)
    requires IsDigits(token) && |token| == 2
    ensures Episode(token) == token
  {
    var v := DecimalValue(token);
    assert token[..|token| - 1] == [token[0]];
    assert [token[0]][..0] == [];
    assert DecimalValue([token[0]]) == DigitValue(token[0]);
    assert v == DigitValue(token[0]) * 10 + DigitValue(token[1]);
    if token[0] == '0' {
      assert token == "0" + [DigitChar(v)];
    } else {
      NatToStringOfValue(token);
    }
  }

  /** Normalising a numeric episode twice gives what normalising it once gives. */
  lemma EpisodeIdempotent(token: string)
    requires IsDigits(token)
    ensures Episode(Episode(token)) == Episode(token)
  {
    var e := Episode(token);
    PyIntOfDigits(e);
    if e[0] == '0' {
      assert |e| == 2;
      EpisodeOfTwoDigits(e);
    } else {
      NatToStringOfValue(e);
      assert Pad2(DecimalValue(e)) == e;
    }
  }
}
