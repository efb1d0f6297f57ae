/** The kill-chain correlator of analyzer.c: stage, score and MITRE tags of one
    address, against the list of detections of its current incident. */
module KillChain {

  datatype Attack =
    | PortScan | NullScan | XmasScan | SynfinScan | ArpSpoof
    | SynFlood | BruteForce
    | DnsTunnel | Amplification | IcmpFlood

  datatype Stage = Idle | Recon | Exploit | Exfil | Complete {
    function Rank(): nat {
      match this
      case Idle => 0
      case Recon => 1
      case Exploit => 2
      case Exfil => 3
      case Complete => 4
    }
  }

  function AttackStage(a: Attack): Stage {
    match a
    case PortScan | NullScan | XmasScan | SynfinScan | ArpSpoof => Recon
    case SynFlood | BruteForce => Exploit
    case DnsTunnel | Amplification | IcmpFlood => Exfil
  }

  function AttackMitre(a: Attack): string {
    match a
    case PortScan | NullScan | XmasScan | SynfinScan => "T1046"
    case ArpSpoof => "T1557"
    case SynFlood | Amplification | IcmpFlood => "T1498"
    case BruteForce => "T1110"
    case DnsTunnel => "T1071.004,T1048"
  }

  const WINDOW_SEC: int := 1800
  const MITRE_SIZE: nat := 128

  // A NUL-terminated string in the 128-byte tag buffer.
  type TagText = s: string | |s| < MITRE_SIZE

  // The kc_* fields of a suspect.
  datatype KillChain = KillChain(
    stage: Stage,
    entered: int,
    firstSeen: int,
    hits: bv8,
    score: int,
    mitre: TagText
  )

  const FRESH := KillChain(Idle, 0, 0, 0, 0, "")

  const ALL_STAGES: bv8 := 0xE

  function StageBit(s: Stage): bv8 {
    match s
    case Idle => 1
    case Recon => 2
    case Exploit => 4
    case Exfil => 8
    case Complete => 16
  }

  const BONUS_SEC: int := 300

  function BaseScore(stage: Stage): int {
    match stage
    case Idle => 0
    case Recon => 20
    case Exploit => 50
    case Exfil => 70
    case Complete => 90
  }

  // calculate_kc_score.
  function Score(stage: Stage, firstSeen: int, now: int): int {
    var base := BaseScore(stage);
    var score := if firstSeen > 0 && stage.Rank() >= 2 && now - firstSeen < BONUS_SEC then base + 10 else base;
    if score > 100 then 100 else score
  }

  // strstr(hay, needle) != NULL.
  predicate Occurs(needle: string, hay: string) {
    exists i | 0 <= i < |hay| + 1 :: OccursAt(needle, hay, i)
  }

  predicate OccursAt(needle: string, hay: string, i: nat) {
    i + |needle| <= |hay| && hay[i..i + |needle|] == needle
  }

  // strncat(dst, src, n).
  function Strncat(dst: string, src: string, n: nat): string {
    dst + (if |src| <= n then src else src[..n])
  }

  function AddTag(mitre: TagText, tag: string): TagText {
    if tag == "" || Occurs(tag, mitre) then mitre
    else
      var m := if mitre == "" then mitre else Strncat(mitre, ",", MITRE_SIZE - |mitre| - 1);
      Strncat(m, tag, MITRE_SIZE - |m| - 1)
  }

  predicate Expired(k: KillChain, now: int) {
    k.stage != Idle && now - k.entered > WINDOW_SEC
  }

  // advance_kill_chain: an expired incident is dropped, then the detection enters.
  function Advance(k0: KillChain, attack: Attack, now: int): KillChain {
    var k := Enter(Renew(k0, now), AttackStage(attack), now);
    k.(mitre := AddTag(k.mitre, AttackMitre(attack)), score := Score(k.stage, k.firstSeen, now))
  }

  function Renew(k: KillChain, now: int): KillChain {
    if Expired(k, now) then k.(stage := Idle, hits := 0, firstSeen := 0, score := 0, mitre := "") else k
  }

  function Enter(k: KillChain, target: Stage, now: int): KillChain {
    RecordHit(Raise(k, target, now), target)
  }

  // The stage only moves forward within an incident.
  function Raise(k: KillChain, target: Stage, now: int): KillChain {
    var first := if k.firstSeen == 0 then now else k.firstSeen;
    if target.Rank() > k.stage.Rank() then k.(firstSeen := first, stage := target, entered := now)
    else k.(firstSeen := first)
  }

  function RecordHit(k: KillChain, target: Stage): KillChain {
    var hits := k.hits | StageBit(target);
    k.(hits := hits, stage := if hits & ALL_STAGES == ALL_STAGES then Complete else k.stage)
  }

  // ---------------------------------------------------------------------
  // Reference: the current incident
  // ---------------------------------------------------------------------

  datatype Detection = Detection(attack: Attack, time: int)

  function Run(ds: seq<Detection>): KillChain {
    if ds == [] then FRESH
    else Advance(Run(ds[..|ds| - 1]), ds[|ds| - 1].attack, ds[|ds| - 1].time)
  }

  function RankOf(d: Detection): nat {
    AttackStage(d.attack).Rank()
  }

  // Highest stage an incident has seen, and when it was first reached.
  function TopRank(inc: seq<Detection>): nat {
    if inc == [] then 0
    else if RankOf(inc[|inc| - 1]) > TopRank(inc[..|inc| - 1]) then RankOf(inc[|inc| - 1])
    else TopRank(inc[..|inc| - 1])
  }

  function TopTime(inc: seq<Detection>): int {
    if inc == [] then 0
    else if RankOf(inc[|inc| - 1]) > TopRank(inc[..|inc| - 1]) then inc[|inc| - 1].time
    else TopTime(inc[..|inc| - 1])
  }

  // The detections since the last one that came more than 30 minutes after the
  // incident had reached its highest stage.
  function Incident(ds: seq<Detection>): seq<Detection> {
    if ds == [] then []
    else
      var inc, d := Incident(ds[..|ds| - 1]), ds[|ds| - 1];
      if inc != [] && d.time - TopTime(inc) > WINDOW_SEC then [d] else inc + [d]
  }

  predicate Hit(inc: seq<Detection>, rank: nat) {
    exists k | 0 <= k < |inc| :: RankOf(inc[k]) == rank
  }

  // The distinct techniques in the order they were first seen.
  function Techniques(inc: seq<Detection>): seq<string> {
    if inc == [] then []
    else
      var ts, t := Techniques(inc[..|inc| - 1]), AttackMitre(inc[|inc| - 1].attack);
      if t in ts then ts else ts + [t]
  }

  function Join(ts: seq<string>): string {
    if ts == [] then ""
    else if |ts| == 1 then ts[0]
    else Join(ts[..|ts| - 1]) + "," + ts[|ts| - 1]
  }

  // ---------------------------------------------------------------------
  // Tag accumulation
  // ---------------------------------------------------------------------

  predicate IsTechnique(t: string) {
    t == "T1046" || t == "T1557" || t == "T1498" || t == "T1110" || t == "T1071.004,T1048"
  }

  ghost predicate DistinctTechniques(ts: seq<string>) {
    && (forall i :: 0 <= i < |ts| ==> IsTechnique(ts[i]))
    && (forall i, j :: 0 <= i < j < |ts| ==> ts[i] != ts[j])
  }

  // The five-character code that starts a technique and tells it from the others.
  ghost predicate CodeAt(hay: string, i: nat, t: string) {
    i + 5 <= |hay| && |t| >= 5 && forall k :: 0 <= k < 5 ==> hay[i + k] == t[k]
  }

  lemma CodeHasNoSeparator(t: string)
    requires IsTechnique(t)
    ensures |t| >= 5 && forall k :: 0 <= k < 5 ==> t[k] != ','
  {
  }

  // Inside one technique, another one's code does not occur.
  lemma CodeInTechnique(u: string, i: nat, t: string)
    requires IsTechnique(u) && IsTechnique(t) && CodeAt(u, i, t)
    ensures u == t
  {
    assert u[i + 0] == t[0] && u[i + 1] == t[1] && u[i + 2] == t[2] && u[i + 3] == t[3] && u[i + 4] == t[4];
  }

  // A code found in a joined list lies inside one of its members.
  lemma {:induction false} CodeInJoin(ts: seq<string>, i: nat, t: string)
    requires (forall k :: 0 <= k < |ts| ==> IsTechnique(ts[k])) && IsTechnique(t)
    requires CodeAt(Join(ts), i, t)
    ensures t in ts
  {
    var n := |ts| - 1;
    if n == 0 {
      CodeInTechnique(ts[0], i, t);
    } else if n > 0 {
      var j, u := Join(ts[..n]), ts[n];
      if i + 5 <= |j| {
        assert CodeAt(j, i, t);
        CodeInJoin(ts[..n], i, t);
      } else {
        CodeAfterSeparator(j, u, i, t);
        CodeInTechnique(u, i - |j| - 1, t);
      }
    }
  }

  // A code that is not inside j must start after the separator: the separator is
  // not one of its characters.
  lemma CodeAfterSeparator(j: string, u: string, i: nat, t: string)
    requires IsTechnique(t) && CodeAt(j + "," + u, i, t) && i + 5 > |j|
    ensures i > |j| && CodeAt(u, i - |j| - 1, t)
  {
    var hay := j + "," + u;
    assert hay[|j|] == ',';
    SeparatorOutside(hay, i, t, |j|);
    forall k | 0 <= k < 5
      ensures u[i - |j| - 1 + k] == t[k]
    {
      assert hay[i + k] == t[k];
    }
  }

  lemma SeparatorOutside(hay: string, i: nat, t: string, p: nat)
    requires IsTechnique(t) && CodeAt(hay, i, t) && p < |hay| && hay[p] == ','
    ensures p < i || i + 5 <= p
  {
    CodeHasNoSeparator(t);
    assert hay[i + 0] == t[0] && hay[i + 1] == t[1] && hay[i + 2] == t[2];
    assert hay[i + 3] == t[3] && hay[i + 4] == t[4];
  }

  lemma {:induction false} MemberOccurs(ts: seq<string>, t: string) returns (i: nat)
    requires t in ts
    ensures OccursAt(t, Join(ts), i)
  {
    var n := |ts| - 1;
    if n == 0 {
      i := 0;
    } else {
      var j, u := Join(ts[..n]), ts[n];
      if t == u {
        i := |j| + 1;
        assert (j + "," + u)[i..i + |t|] == t;
      } else {
        i := MemberOccurs(ts[..n], t);
        assert (j + "," + u)[i..i + |t|] == j[i..i + |t|];
      }
    }
  }

  // strstr on the accumulated text decides membership in the list it came from.
  lemma OccursIsMembership(ts: seq<string>, t: string)
    requires (forall k :: 0 <= k < |ts| ==> IsTechnique(ts[k])) && IsTechnique(t)
    ensures Occurs(t, Join(ts)) <==> t in ts
  {
    var hay := Join(ts);
    if t in ts {
      var i := MemberOccurs(ts, t);
    }
    if Occurs(t, hay) {
      var i :| 0 <= i < |hay| + 1 && OccursAt(t, hay, i);
      OccursHasCode(t, hay, i);
      CodeInJoin(ts, i, t);
    }
  }

  lemma OccursHasCode(t: string, hay: string, i: nat)
    requires IsTechnique(t) && OccursAt(t, hay, i)
    ensures CodeAt(hay, i, t)
  {
    forall k | 0 <= k < 5
      ensures hay[i + k] == t[k]
    {
      assert hay[i..i + |t|][k] == t[k];
    }
  }

  lemma {:induction false} JoinLength(ts: seq<string>)
    requires forall k :: 0 <= k < |ts| ==> IsTechnique(ts[k])
    ensures |Join(ts)| <= 16 * |ts|
    ensures ts != [] ==> Join(ts) != ""
  {
    if |ts| > 1 {
      JoinLength(ts[..|ts| - 1]);
    }
  }

  lemma {:induction false} DistinctCount(ts: seq<string>, all: set<string>)
    requires forall i, j :: 0 <= i < j < |ts| ==> ts[i] != ts[j]
    requires forall i :: 0 <= i < |ts| ==> ts[i] in all
    ensures |ts| <= |all|
  {
    if ts != [] {
      var n := |ts| - 1;
      DistinctCount(ts[..n], all - {ts[n]});
    }
  }

  // The tag buffer is never truncated: AddTag appends exactly a new technique.
  lemma AddTagIsAppend(ts: seq<string>, t: string)
    requires DistinctTechniques(ts) && IsTechnique(t)
    ensures |Join(ts)| < MITRE_SIZE
    ensures var ts' := if t in ts then ts else ts + [t];
            DistinctTechniques(ts') && AddTag(Join(ts), t) == Join(ts')
  {
    TagsFit(ts);
    OccursIsMembership(ts, t);
    if t !in ts {
      JoinAppend(ts, t);
      if ts == [] { assert "" + t == t; }
    }
  }

  lemma JoinAppend(ts: seq<string>, t: string)
    ensures Join(ts + [t]) == if ts == [] then t else Join(ts) + "," + t
  {
    assert (ts + [t])[..|ts|] == ts;
  }

  lemma TagsFit(ts: seq<string>)
    requires DistinctTechniques(ts)
    ensures |Join(ts)| + 1 + 15 < MITRE_SIZE
    ensures ts != [] <==> Join(ts) != ""
  {
    var all := {"T1046", "T1557", "T1498", "T1110", "T1071.004,T1048"};
    DistinctCount(ts, all);
    assert |all| <= 5;
    JoinLength(ts);
  }

  // ---------------------------------------------------------------------
  // Main result
  // ---------------------------------------------------------------------

  // What every field says about the current incident.
  ghost predicate Describes(k: KillChain, inc: seq<Detection>) {
    if inc == [] then k == FRESH else StageDescribes(k, inc) && TagsDescribe(k, inc)
  }

  ghost predicate TagsDescribe(k: KillChain, inc: seq<Detection>) {
    DistinctTechniques(Techniques(inc)) && k.mitre == Join(Techniques(inc))
  }

  ghost predicate StageDescribes(k: KillChain, inc: seq<Detection>)
    requires inc != []
  {
    && TimesDescribe(k, inc)
    && k.hits == HitBits(inc)
    && LevelDescribes(k.stage, inc)
    && k.score == Score(k.stage, inc[0].time, inc[|inc| - 1].time)
  }

  ghost predicate TimesDescribe(k: KillChain, inc: seq<Detection>)
    requires inc != []
  {
    k.firstSeen == inc[0].time && k.entered == TopTime(inc)
  }

  ghost predicate LevelDescribes(s: Stage, inc: seq<Detection>) {
    && 1 <= TopRank(inc) <= 3
    && (s == Complete <==> Hit(inc, 1) && Hit(inc, 2) && Hit(inc, 3))
    && (s != Complete ==> s.Rank() == TopRank(inc))
    && (s == Complete ==> TopRank(inc) == 3)
  }

  function HitBits(inc: seq<Detection>): bv8 {
    (if Hit(inc, 1) then 2 else 0) | (if Hit(inc, 2) then 4 else 0) | (if Hit(inc, 3) then 8 else 0)
  }

  lemma HitAppend(inc: seq<Detection>, d: Detection, rank: nat)
    ensures Hit(inc + [d], rank) <==> Hit(inc, rank) || RankOf(d) == rank
  {
    if Hit(inc, rank) {
      var k :| 0 <= k < |inc| && RankOf(inc[k]) == rank;
      assert RankOf((inc + [d])[k]) == rank;
    }
    if RankOf(d) == rank {
      assert RankOf((inc + [d])[|inc|]) == rank;
    }
  }

  lemma HitBitsAppend(inc: seq<Detection>, d: Detection)
    ensures HitBits(inc + [d]) == HitBits(inc) | StageBit(AttackStage(d.attack))
    ensures HitBits(inc + [d]) & ALL_STAGES == ALL_STAGES
            <==> Hit(inc + [d], 1) && Hit(inc + [d], 2) && Hit(inc + [d], 3)
  {
    HitAppend(inc, d, 1);
    HitAppend(inc, d, 2);
    HitAppend(inc, d, 3);
  }

  lemma TopRankIsHit(inc: seq<Detection>)
    ensures TopRank(inc) <= 3
    ensures inc != [] ==> TopRank(inc) >= 1 && Hit(inc, TopRank(inc))
    ensures forall k :: 0 <= k < |inc| ==> RankOf(inc[k]) <= TopRank(inc)
  {
    TopRankHit(inc);
    TopRankBounds(inc);
  }

  lemma {:induction false} TopRankHit(inc: seq<Detection>)
    ensures TopRank(inc) <= 3
    ensures inc != [] ==> TopRank(inc) >= 1 && Hit(inc, TopRank(inc))
  {
    if inc != [] {
      var front, d := inc[..|inc| - 1], inc[|inc| - 1];
      TopRankHit(front);
      TopAppend(front, d);
      assert front + [d] == inc;
      HitAppend(front, d, TopRank(inc));
    }
  }

  lemma {:induction false} TopRankBounds(inc: seq<Detection>)
    ensures forall k :: 0 <= k < |inc| ==> RankOf(inc[k]) <= TopRank(inc)
  {
    if inc != [] {
      var n := |inc| - 1;
      var front := inc[..n];
      TopRankBounds(front);
      assert TopRank(front) <= TopRank(inc) && RankOf(inc[n]) <= TopRank(inc);
      assert forall k :: 0 <= k < n ==> inc[k] == front[k];
    }
  }

  // One detection that stays within the incident.
  lemma GrowKeepsDescription(k: KillChain, inc: seq<Detection>, d: Detection)
    requires Describes(k, inc) && d.time > 0 && (inc != [] ==> inc[0].time > 0)
    requires inc == [] || d.time - TopTime(inc) <= WINDOW_SEC
    ensures Describes(Advance(k, d.attack, d.time), inc + [d])
  {
    if inc == [] {
      FirstDescribes(d);
    } else {
      GrowKeepsStage(k, inc, d);
      GrowKeepsTags(k, inc, d);
    }
  }

  lemma FirstDescribes(d: Detection)
    requires d.time > 0
    ensures StageDescribes(Advance(FRESH, d.attack, d.time), [d])
    ensures TagsDescribe(Advance(FRESH, d.attack, d.time), [d])
    ensures [] + [d] == [d]
  {
    assert [d][..0] == [] && [] + [d] == [d];
    FirstEntersStage(d);
    AddTagIsAppend([], AttackMitre(d.attack));
  }

  lemma FirstEntersStage(d: Detection)
    requires d.time > 0
    ensures var k := Enter(FRESH, AttackStage(d.attack), d.time);
            TimesDescribe(k, [d]) && k.hits == HitBits([d]) && LevelDescribes(k.stage, [d])
  {
    assert [] + [d] == [d];
    assert HitBits([]) == 0;
    HitBitsAppend([], d);
    FirstLevel(d);
  }

  lemma FirstLevel(d: Detection)
    ensures TopRank([d]) == RankOf(d) && TopTime([d]) == d.time
    ensures LevelDescribes(AttackStage(d.attack), [d])
  {
    assert [d][..0] == [];
    assert Hit([d], RankOf(d)) by { assert RankOf([d][0]) == RankOf(d); }
  }

  lemma GrowKeepsStage(k: KillChain, inc: seq<Detection>, d: Detection)
    requires inc != [] && StageDescribes(k, inc) && d.time > 0 && inc[0].time > 0
    requires d.time - TopTime(inc) <= WINDOW_SEC
    ensures StageDescribes(Advance(k, d.attack, d.time), inc + [d])
  {
    assert Renew(k, d.time) == k;
    var k' := Enter(k, AttackStage(d.attack), d.time);
    GrowEntersStage(k, inc, d);
    assert (inc + [d])[0] == inc[0] && (inc + [d])[|inc|] == d;
  }

  lemma GrowEntersStage(k: KillChain, inc: seq<Detection>, d: Detection)
    requires inc != [] && StageDescribes(k, inc) && d.time > 0 && inc[0].time > 0
    ensures var k' := Enter(k, AttackStage(d.attack), d.time);
            && TimesDescribe(k', inc + [d]) && k'.hits == HitBits(inc + [d]) && LevelDescribes(k'.stage, inc + [d])
  {
    var k' := Enter(k, AttackStage(d.attack), d.time);
    TopAppend(inc, d);
    HitBitsAppend(inc, d);
    LevelAppend(k.stage, inc, d, k'.stage);
  }

  lemma TopAppend(inc: seq<Detection>, d: Detection)
    ensures var rises := RankOf(d) > TopRank(inc);
            && TopRank(inc + [d]) == (if rises then RankOf(d) else TopRank(inc))
            && TopTime(inc + [d]) == (if rises then d.time else TopTime(inc))
  {
    assert (inc + [d])[..|inc|] == inc;
  }

  lemma LevelAppend(s: Stage, inc: seq<Detection>, d: Detection, s': Stage)
    requires LevelDescribes(s, inc)
    requires s' == if Hit(inc + [d], 1) && Hit(inc + [d], 2) && Hit(inc + [d], 3) then Complete
                   else if RankOf(d) > s.Rank() then AttackStage(d.attack) else s
    ensures LevelDescribes(s', inc + [d])
  {
    TopAppend(inc, d);
    HitAppend(inc, d, 1);
    HitAppend(inc, d, 2);
    HitAppend(inc, d, 3);
    if s' == Complete { TopRankIsHit(inc + [d]); HitThreeIsTop(inc + [d]); }
  }

  lemma HitThreeIsTop(inc: seq<Detection>)
    requires Hit(inc, 3)
    ensures TopRank(inc) == 3
  {
    TopRankIsHit(inc);
    var k :| 0 <= k < |inc| && RankOf(inc[k]) == 3;
  }

  lemma GrowKeepsTags(k: KillChain, inc: seq<Detection>, d: Detection)
    requires inc != [] && TagsDescribe(k, inc) && !Expired(k, d.time)
    ensures TagsDescribe(Advance(k, d.attack, d.time), inc + [d])
  {
    var ts, t := Techniques(inc), AttackMitre(d.attack);
    TechniquesAppend(inc, d);
    AddTagIsAppend(ts, t);
    AdvanceAddsTag(k, d);
  }

  lemma TechniquesAppend(inc: seq<Detection>, d: Detection)
    ensures var ts, t := Techniques(inc), AttackMitre(d.attack);
            IsTechnique(t) && Techniques(inc + [d]) == if t in ts then ts else ts + [t]
  {
    assert (inc + [d])[..|inc|] == inc;
  }

  lemma AdvanceAddsTag(k: KillChain, d: Detection)
    requires !Expired(k, d.time)
    ensures Advance(k, d.attack, d.time).mitre == AddTag(k.mitre, AttackMitre(d.attack))
  {
  }

  lemma ExpiryStartsOver(k: KillChain, inc: seq<Detection>, d: Detection)
    requires Describes(k, inc) && d.time > 0
    requires inc != [] && d.time - TopTime(inc) > WINDOW_SEC
    ensures Describes(Advance(k, d.attack, d.time), [d])
  {
    var blank := k.(stage := Idle, hits := 0, firstSeen := 0, score := 0, mitre := "");
    assert Expired(k, d.time);
    var restarted := Advance(FRESH, d.attack, d.time);
    assert Advance(k, d.attack, d.time) == restarted;
    GrowKeepsDescription(FRESH, [], d);
    assert [] + [d] == [d];
  }

  lemma {:induction false} RunDescribesIncident(ds: seq<Detection>)
    requires forall k :: 0 <= k < |ds| ==> ds[k].time > 0
    ensures Describes(Run(ds), Incident(ds))
    ensures Incident(ds) != [] ==> Incident(ds)[0].time > 0
  {
    if ds != [] {
      var n := |ds| - 1;
      RunDescribesIncident(ds[..n]);
      var k, inc, d := Run(ds[..n]), Incident(ds[..n]), ds[n];
      if inc != [] && d.time - TopTime(inc) > WINDOW_SEC {
        ExpiryStartsOver(k, inc, d);
      } else {
        GrowKeepsDescription(k, inc, d);
      }
    }
  }

  // Within an incident the stage never falls.
  lemma StageNeverFalls(ds: seq<Detection>, d: Detection)
    requires d.time > 0 && forall k :: 0 <= k < |ds| ==> ds[k].time > 0
    requires Incident(ds + [d]) != [d]
    ensures Run(ds).stage.Rank() <= Run(ds + [d]).stage.Rank()
  {
    RunDescribesIncident(ds);
    assert (ds + [d])[..|ds|] == ds;
    AdvanceRaises(Run(ds), Incident(ds), d);
  }

  lemma AdvanceRaises(k: KillChain, inc: seq<Detection>, d: Detection)
    requires Describes(k, inc) && !Expired(k, d.time)
    ensures k.stage.Rank() <= Advance(k, d.attack, d.time).stage.Rank()
  {
    var target := AttackStage(d.attack);
    assert Renew(k, d.time) == k;
    if k.stage == Complete {
      assert k.hits & ALL_STAGES == ALL_STAGES;
      KeepsAllBits(k.hits, StageBit(target));
    }
    RecordRaises(Raise(k, target, d.time), target);
  }

  lemma RecordRaises(k: KillChain, target: Stage)
    requires k.stage == Complete ==> (k.hits | StageBit(target)) & ALL_STAGES == ALL_STAGES
    ensures k.stage.Rank() <= RecordHit(k, target).stage.Rank()
  {
  }

  lemma KeepsAllBits(h: bv8, b: bv8)
    requires h & ALL_STAGES == ALL_STAGES
    ensures (h | b) & ALL_STAGES == ALL_STAGES
  {
  }

  // ---------------------------------------------------------------------
  // Extent of an incident
  // ---------------------------------------------------------------------

  // Every detection came at most 30 minutes after the highest stage before it.
  ghost predicate Connected(inc: seq<Detection>) {
    forall k :: 1 <= k < |inc| ==> inc[k].time <= TopTime(inc[..k]) + WINDOW_SEC
  }

  lemma {:induction false} IncidentConnected(ds: seq<Detection>)
    ensures Connected(Incident(ds))
  {
    if ds != [] {
      var n := |ds| - 1;
      IncidentConnected(ds[..n]);
      var inc, d := Incident(ds[..n]), ds[n];
      if !(inc != [] && d.time - TopTime(inc) > WINDOW_SEC) {
        forall k | 1 <= k < |inc + [d]|
          ensures (inc + [d])[k].time <= TopTime((inc + [d])[..k]) + WINDOW_SEC
        {
          assert (inc + [d])[..k] == if k < |inc| then inc[..k] else inc;
        }
      }
    }
  }

  // Each of the at most two rises after the first detection buys 30 minutes.
  lemma {:induction false} TopTimeBound(inc: seq<Detection>)
    requires inc != [] && Connected(inc)
    ensures 1 <= TopRank(inc) <= 3
    ensures TopTime(inc) <= inc[0].time + WINDOW_SEC * (TopRank(inc) - 1)
  {
    var n := |inc| - 1;
    TopRankIsHit(inc);
    if n > 0 {
      assert Connected(inc[..n]) by {
        forall k | 1 <= k < n
          ensures inc[..n][k].time <= TopTime(inc[..n][..k]) + WINDOW_SEC
        {
          assert inc[..n][..k] == inc[..k];
        }
      }
      TopTimeBound(inc[..n]);
    }
  }

  // No incident reaches further than 3 * 30 minutes past its first detection.
  lemma IncidentSpan(ds: seq<Detection>, k: nat)
    requires k < |Incident(ds)|
    ensures Incident(ds)[k].time <= Incident(ds)[0].time + 5400
  {
    var inc := Incident(ds);
    IncidentConnected(ds);
    if k > 0 {
      assert Connected(inc[..k]) by {
        forall j | 1 <= j < k
          ensures inc[..k][j].time <= TopTime(inc[..k][..j]) + WINDOW_SEC
        {
          assert inc[..k][..j] == inc[..j];
        }
      }
      TopTimeBound(inc[..k]);
    }
  }

  lemma IncidentAppend(ds: seq<Detection>, d: Detection)
    ensures var inc := Incident(ds);
            Incident(ds + [d]) == if inc != [] && d.time - TopTime(inc) > WINDOW_SEC then [d] else inc + [d]
  {
    assert (ds + [d])[..|ds|] == ds;
  }

  // ---------------------------------------------------------------------
  // The documented reset: 30 minutes without activity
  // ---------------------------------------------------------------------

  // Positive times in order.
  ghost predicate InOrder(ds: seq<Detection>) {
    && (forall k :: 0 <= k < |ds| ==> ds[k].time > 0)
    && forall j, k :: 0 <= j <= k < |ds| ==> ds[j].time <= ds[k].time
  }

  // Every detection of the incident came between its first and the latest one.
  ghost predicate Spans(inc: seq<Detection>, last: Detection) {
    && inc != [] && inc[|inc| - 1] == last
    && forall k :: 0 <= k < |inc| ==> inc[0].time <= inc[k].time <= last.time
  }

  lemma {:induction false} IncidentSpans(ds: seq<Detection>)
    requires ds != [] && InOrder(ds)
    ensures Spans(Incident(ds), ds[|ds| - 1])
  {
    var n := |ds| - 1;
    assert ds == ds[..n] + [ds[n]];
    IncidentAppend(ds[..n], ds[n]);
    if n > 0 {
      IncidentSpans(ds[..n]);
      assert ds[n - 1].time <= ds[n].time;
    }
  }

  lemma {:induction false} TopTimeWithin(inc: seq<Detection>, t: int)
    requires inc != [] && forall k :: 0 <= k < |inc| ==> inc[k].time <= t
    ensures TopTime(inc) <= t
  {
    var n := |inc| - 1;
    if n > 0 { TopTimeWithin(inc[..n], t); } else { TopRankIsHit(inc); }
  }

  // What the reset does to the record: a new incident starts with the detection.
  lemma ResetStartsOver(ds: seq<Detection>, d: Detection)
    requires ds != [] && InOrder(ds) && d.time > 0
    ensures Run(ds + [d]).firstSeen == if Expired(Run(ds), d.time) then d.time else Run(ds).firstSeen
    ensures Incident(ds + [d]) == [d] <==> Expired(Run(ds), d.time)
  {
    RunDescribesIncident(ds);
    IncidentSpans(ds);
    IncidentAppend(ds, d);
    assert (ds + [d])[..|ds|] == ds;
  }

  // The code resets the record after 30 minutes without activity, as documented, at
  // every detection but those that find the address active within the last 30 minutes
  // and its stage entered before.
  lemma ResetExactly(ds: seq<Detection>, d: Detection)
    requires ds != [] && InOrder(ds)
    ensures var last := ds[|ds| - 1].time;
            (Expired(Run(ds), d.time) <==> d.time - last > 1800)
            <==> !(Run(ds).entered < d.time - 1800 <= last)
  {
    RunDescribesIncident(ds);
    IncidentSpans(ds);
    TopTimeWithin(Incident(ds), ds[|ds| - 1].time);
    TopRankIsHit(Incident(ds));
  }

  // The window is measured from the last rise of the stage, not from the last activity:
  // a detection that does not raise it leaves the end of the incident where it was,
  // however recent it is.
  lemma ActivityDoesNotRenew(ds: seq<Detection>, b: Detection, t: int)
    requires ds != [] && InOrder(ds)
    requires !Expired(Run(ds), b.time) && RankOf(b) <= Run(ds).stage.Rank()
    ensures Expired(Run(ds + [b]), t) <==> Expired(Run(ds), t)
    ensures Expired(Run(ds), t) <==> t - Run(ds).entered > WINDOW_SEC
  {
    assert (ds + [b])[..|ds|] == ds;
    RunDescribesIncident(ds);
    IncidentSpans(ds);
    ExpiryByTop(Run(ds), Incident(ds), t);
    NoRiseKeepsEntry(Run(ds), b);
  }

  lemma NoRiseKeepsEntry(k: KillChain, b: Detection)
    requires k.stage != Idle && !Expired(k, b.time) && RankOf(b) <= k.stage.Rank()
    ensures Advance(k, b.attack, b.time).entered == k.entered && Advance(k, b.attack, b.time).stage != Idle
  {
  }

  lemma ExpiryByTop(k: KillChain, inc: seq<Detection>, t: int)
    requires inc != [] && StageDescribes(k, inc)
    ensures k.stage != Idle && (Expired(k, t) <==> t - k.entered > WINDOW_SEC)
  {
  }

  // An address that is detected again one second after the last time starts over.
  lemma ActiveAddressIsReset()
    ensures var ds := [Detection(PortScan, 1), Detection(PortScan, 1801), Detection(PortScan, 1802)];
            && Run(ds[..2]).firstSeen == 1 && Run(ds).firstSeen == 1802
  {
    var a, b, c := Detection(PortScan, 1), Detection(PortScan, 1801), Detection(PortScan, 1802);
    var ds := [a, b, c];
    SameLevel(a, b);
    assert ds[..2] == [a, b] && [a, b] + [c] == ds;
    ResetStartsOver([a, b], c);
  }

  // Two detections of one stage, the second within the window.
  lemma SameLevel(a: Detection, b: Detection)
    requires 0 < a.time <= b.time <= a.time + WINDOW_SEC && RankOf(a) == RankOf(b)
    ensures Run([a, b]).firstSeen == Run([a, b]).entered == a.time && Run([a, b]).stage != Idle
  {
    PairIncident(a, b);
    RunDescribesIncident([a, b]);
    assert TimesDescribe(Run([a, b]), [a, b]);
    assert LevelDescribes(Run([a, b]).stage, [a, b]);
  }

  lemma PairIncident(a: Detection, b: Detection)
    requires b.time <= a.time + WINDOW_SEC
    ensures Incident([a, b]) == [a, b]
    ensures TopRank([a, b]) == if RankOf(b) > RankOf(a) then RankOf(b) else RankOf(a)
    ensures TopTime([a, b]) == if RankOf(b) > RankOf(a) then b.time else a.time
  {
    assert [] + [a] == [a] && [a] + [b] == [a, b];
    IncidentAppend([], a);
    FirstLevel(a);
    IncidentAppend([a], b);
    TopAppend([a], b);
  }

  // ---------------------------------------------------------------------
  // Score
  // ---------------------------------------------------------------------

  // A score of 80 or more means all three stages, or exfiltration seen with the
  // latest detection less than five minutes after the first.
  lemma HighScore(ds: seq<Detection>)
    requires ds != [] && forall k :: 0 <= k < |ds| ==> ds[k].time > 0
    ensures var inc := Incident(ds);
            && inc != []
            && 0 <= Run(ds).score <= 100
            && (Run(ds).score >= 80 <==>
                  || (Hit(inc, 1) && Hit(inc, 2) && Hit(inc, 3))
                  || (Hit(inc, 3) && inc[|inc| - 1].time - inc[0].time < 300))
  {
    RunDescribesIncident(ds);
    HighScoreOf(Run(ds), Incident(ds));
  }

  lemma HighScoreOf(k: KillChain, inc: seq<Detection>)
    requires inc != [] && StageDescribes(k, inc) && inc[0].time > 0
    ensures 0 <= k.score <= 100
    ensures k.score >= 80 <==>
              || (Hit(inc, 1) && Hit(inc, 2) && Hit(inc, 3))
              || (Hit(inc, 3) && inc[|inc| - 1].time - inc[0].time < 300)
  {
    TopRankIsHit(inc);
    if Hit(inc, 3) { HitThreeIsTop(inc); }
  }

  // ---------------------------------------------------------------------
  // Stage, score and techniques by the attacks of the incident
  // ---------------------------------------------------------------------

  ghost predicate Seen(inc: seq<Detection>, attacks: set<Attack>) {
    exists k :: 0 <= k < |inc| && inc[k].attack in attacks
  }

  const RECON: set<Attack> := {PortScan, NullScan, XmasScan, SynfinScan, ArpSpoof}

  const EXPLOIT: set<Attack> := {SynFlood, BruteForce}

  const EXFIL: set<Attack> := {DnsTunnel, Amplification, IcmpFlood}

  lemma HitBySeen(inc: seq<Detection>)
    ensures Hit(inc, 1) <==> Seen(inc, RECON)
    ensures Hit(inc, 2) <==> Seen(inc, EXPLOIT)
    ensures Hit(inc, 3) <==> Seen(inc, EXFIL)
  {
    forall k | 0 <= k < |inc|
      ensures RankOf(inc[k]) == 1 <==> inc[k].attack in RECON
      ensures RankOf(inc[k]) == 2 <==> inc[k].attack in EXPLOIT
      ensures RankOf(inc[k]) == 3 <==> inc[k].attack in EXFIL
    {
      RankByAttack(inc[k]);
    }
  }

  lemma RankByAttack(d: Detection)
    ensures RankOf(d) == 1 <==> d.attack in RECON
    ensures RankOf(d) == 2 <==> d.attack in EXPLOIT
    ensures RankOf(d) == 3 <==> d.attack in EXFIL
  {
    match d.attack
    case PortScan =>
    case NullScan =>
    case XmasScan =>
    case SynfinScan =>
    case ArpSpoof =>
    case SynFlood =>
    case BruteForce =>
    case DnsTunnel =>
    case Amplification =>
    case IcmpFlood =>
  }

  // The stage and the score after any detections, in numbers: 20, 50, 70 or 90 by the
  // kinds of attack in the current incident, and 10 more from the second kind on while
  // the incident spans less than 300 seconds.
  lemma StageAndScore(ds: seq<Detection>)
    requires ds != [] && forall k :: 0 <= k < |ds| ==> ds[k].time > 0
    ensures var inc, k := Incident(ds), Run(ds);
            && inc != []
            && var bonus := if inc[|inc| - 1].time - inc[0].time < 300 then 10 else 0;
               if Seen(inc, RECON) && Seen(inc, EXPLOIT) && Seen(inc, EXFIL) then k.stage == Complete && k.score == 90 + bonus
               else if Seen(inc, EXFIL) then k.stage == Exfil && k.score == 70 + bonus
               else if Seen(inc, EXPLOIT) then k.stage == Exploit && k.score == 50 + bonus
               else k.stage == Recon && k.score == 20
  {
    var inc := Incident(ds);
    RunDescribesIncident(ds);
    HitBySeen(inc);
    LevelByHits(Run(ds).stage, inc);
    ScoreByStage(Run(ds), inc);
  }

  lemma LevelByHits(s: Stage, inc: seq<Detection>)
    requires inc != [] && LevelDescribes(s, inc)
    ensures s == if Hit(inc, 1) && Hit(inc, 2) && Hit(inc, 3) then Complete
                 else if Hit(inc, 3) then Exfil else if Hit(inc, 2) then Exploit else Recon
  {
    TopRankIsHit(inc);
    if Hit(inc, 3) {
      HitThreeIsTop(inc);
    } else if Hit(inc, 2) {
      var k :| 0 <= k < |inc| && RankOf(inc[k]) == 2;
    }
  }

  lemma ScoreByStage(k: KillChain, inc: seq<Detection>)
    requires inc != [] && StageDescribes(k, inc) && inc[0].time > 0 && k.stage != Idle
    ensures var bonus := if inc[|inc| - 1].time - inc[0].time < 300 then 10 else 0;
            k.score == match k.stage
                       case Complete => 90 + bonus
                       case Exfil => 70 + bonus
                       case Exploit => 50 + bonus
                       case _ => 20
  {
  }

  // Which techniques the tags of the record name.
  lemma TechniquesBySeen(inc: seq<Detection>)
    ensures "T1046" in Techniques(inc) <==> Seen(inc, {PortScan, NullScan, XmasScan, SynfinScan})
    ensures "T1557" in Techniques(inc) <==> Seen(inc, {ArpSpoof})
    ensures "T1498" in Techniques(inc) <==> Seen(inc, {SynFlood, Amplification, IcmpFlood})
    ensures "T1110" in Techniques(inc) <==> Seen(inc, {BruteForce})
    ensures "T1071.004,T1048" in Techniques(inc) <==> Seen(inc, {DnsTunnel})
  {
    TechniqueByAttack();
    TechniqueSeen(inc, "T1046", {PortScan, NullScan, XmasScan, SynfinScan});
    TechniqueSeen(inc, "T1557", {ArpSpoof});
    TechniqueSeen(inc, "T1498", {SynFlood, Amplification, IcmpFlood});
    TechniqueSeen(inc, "T1110", {BruteForce});
    TechniqueSeen(inc, "T1071.004,T1048", {DnsTunnel});
  }

  ghost predicate TaggedBy(t: string, attacks: set<Attack>) {
    forall a :: AttackMitre(a) == t <==> a in attacks
  }

  lemma {:induction false} TechniqueSeen(inc: seq<Detection>, t: string, attacks: set<Attack>)
    requires TaggedBy(t, attacks)
    ensures t in Techniques(inc) <==> Seen(inc, attacks)
  {
    if inc != [] {
      var front, d := inc[..|inc| - 1], inc[|inc| - 1];
      TechniqueSeen(front, t, attacks);
      assert inc == front + [d];
      TechniquesAppend(front, d);
      assert AttackMitre(d.attack) == t <==> d.attack in attacks;
      SeenAppend(front, d, attacks);
    }
  }

  lemma SeenAppend(inc: seq<Detection>, d: Detection, attacks: set<Attack>)
    ensures Seen(inc + [d], attacks) <==> Seen(inc, attacks) || d.attack in attacks
  {
    if Seen(inc, attacks) {
      var k :| 0 <= k < |inc| && inc[k].attack in attacks;
      assert (inc + [d])[k].attack in attacks;
    }
    if d.attack in attacks { assert (inc + [d])[|inc|].attack in attacks; }
  }

  lemma TechniqueByAttack()
    ensures TaggedBy("T1046", {PortScan, NullScan, XmasScan, SynfinScan})
    ensures TaggedBy("T1557", {ArpSpoof})
    ensures TaggedBy("T1498", {SynFlood, Amplification, IcmpFlood})
    ensures TaggedBy("T1110", {BruteForce})
    ensures TaggedBy("T1071.004,T1048", {DnsTunnel})
  {
    assert "T1046"[4] == '6' && "T1557"[4] == '7' && "T1498"[4] == '8' && "T1110"[4] == '0';
    assert |"T1071.004,T1048"| == 15 && |"T1046"| == 5 && |"T1557"| == 5 && |"T1498"| == 5 && |"T1110"| == 5;
  }

  // ---------------------------------------------------------------------
  // The documented bonus: EXPLOIT reached in less than five minutes
  // ---------------------------------------------------------------------

  // The score of the record includes the bonus.
  predicate HasBonus(k: KillChain) {
    k.score == BaseScore(k.stage) + 10
  }

  // The incident reached EXPLOIT less than five minutes after its first detection.
  ghost predicate PromptExploit(inc: seq<Detection>) {
    exists k :: 0 <= k < |inc| && ExploitWithin(inc, k)
  }

  predicate ExploitWithin(inc: seq<Detection>, k: nat)
    requires k < |inc|
  {
    RankOf(inc[k]) == 2 && inc[k].time - inc[0].time < 300
  }

  // The code gives the documented bonus exactly if, in the first five minutes, an
  // exfiltration came with an exploit, and later, no exploit was that prompt.
  lemma BonusExactly(ds: seq<Detection>)
    requires ds != [] && InOrder(ds)
    ensures var inc := Incident(ds);
            && inc != []
            && ((HasBonus(Run(ds)) <==> PromptExploit(inc))
                <==> if ds[|ds| - 1].time - inc[0].time < 300 then Hit(inc, 3) ==> Hit(inc, 2)
                     else !PromptExploit(inc))
  {
    var inc, last := Incident(ds), ds[|ds| - 1];
    RunDescribesIncident(ds);
    IncidentSpans(ds);
    BonusByStage(Run(ds), inc);
    TopRankIsHit(inc);
    if Hit(inc, 3) { HitThreeIsTop(inc); }
    if Hit(inc, 2) && last.time - inc[0].time < BONUS_SEC {
      var k :| 0 <= k < |inc| && RankOf(inc[k]) == 2;
      assert ExploitWithin(inc, k);
    }
    if PromptExploit(inc) {
      var k :| 0 <= k < |inc| && ExploitWithin(inc, k);
      assert RankOf(inc[k]) == 2;
    }
  }

  // The bonus is there from EXPLOIT on while the latest detection is prompt.
  lemma BonusByStage(k: KillChain, inc: seq<Detection>)
    requires inc != [] && StageDescribes(k, inc) && inc[0].time > 0
    ensures HasBonus(k) <==> TopRank(inc) >= 2 && inc[|inc| - 1].time - inc[0].time < 300
  {
  }

  // It comes without any exploit, for a first detection that is an exfiltration ...
  lemma BonusWithoutExploit()
    ensures var ds := [Detection(IcmpFlood, 1)];
            Run(ds).score == 80 && HasBonus(Run(ds)) && !PromptExploit(ds)
  {
    var d := Detection(IcmpFlood, 1);
    FirstDescribes(d);
    assert [d][..0] == [];
    assert Run([d]) == Advance(FRESH, d.attack, d.time);
  }

  // ... and goes with the next detection after five minutes, however prompt the
  // exploit was.
  lemma PromptExploitLosesBonus()
    ensures var ds := [Detection(PortScan, 1), Detection(BruteForce, 100), Detection(BruteForce, 400)];
            Incident(ds) == ds && PromptExploit(ds) && Run(ds).score == 50 && !HasBonus(Run(ds))
  {
    ReconThenExploits(Detection(PortScan, 1), Detection(BruteForce, 100), Detection(BruteForce, 400));
  }

  lemma ReconThenExploits(a: Detection, b: Detection, c: Detection)
    requires 0 < a.time <= b.time < a.time + BONUS_SEC <= c.time <= b.time + WINDOW_SEC
    requires RankOf(a) == 1 && RankOf(b) == 2 && RankOf(c) == 2
    ensures var ds := [a, b, c];
            Incident(ds) == ds && PromptExploit(ds) && Run(ds).score == 50 && !HasBonus(Run(ds))
  {
    var ds := [a, b, c];
    OneIncident(a, b, c);
    assert ExploitWithin(ds, 1);
    RunDescribesIncident(ds);
    BonusByStage(Run(ds), ds);
    assert Run(ds).stage == Exploit;
  }

  lemma OneIncident(a: Detection, b: Detection, c: Detection)
    requires 0 < a.time <= b.time <= a.time + WINDOW_SEC && b.time <= c.time <= b.time + WINDOW_SEC
    requires RankOf(a) == 1 && RankOf(b) == 2 && RankOf(c) == 2
    ensures Incident([a, b, c]) == [a, b, c] && TopRank([a, b, c]) == 2 && !Hit([a, b, c], 3)
  {
    PairIncident(a, b);
    assert [a, b] + [c] == [a, b, c];
    IncidentAppend([a, b], c);
    TopAppend([a, b], c);
    TopRankIsHit([a, b, c]);
    assert Hit([a, b, c], 3) ==> TopRank([a, b, c]) >= 3;
  }
}
