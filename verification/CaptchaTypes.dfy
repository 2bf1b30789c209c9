/** Rows of the captcha tables and the keys of the Redis pools. */
module CaptchaTypes {
  import opened Accounts

  type TemplateId = string
  type AssetId = nat
  type ChallengeId = nat

  datatype Difficulty = Easy | Medium | Hard

  datatype AssetStatus = Available | Reserved | Used | AssetExpired | AssetArchived

  datatype Asset = Asset(
    templateId: TemplateId,
    difficulty: Difficulty,
    status: AssetStatus,
    expiresAt: Millis,
    usedCount: nat)

  datatype ChallengeStatus = Pending | Passed | Failed | Expired

  datatype Challenge = Challenge(assetId: AssetId, status: ChallengeStatus, attemptsCount: nat, expiresAt: Millis)

  datatype Attempt = Attempt(challengeId: ChallengeId, isSuccess: bool)

  /** Whether the conditional update that reserves an asset finds it. */
  predicate Reservable(assets: map<AssetId, Asset>, id: AssetId, now: Millis) {
    id in assets && assets[id].status == Available && assets[id].expiresAt > now
  }

  function Reserve(assets: map<AssetId, Asset>, id: AssetId): map<AssetId, Asset>
    requires id in assets
  {
    assets[id := assets[id].(status := Reserved)]
  }

  function MarkUsed(assets: map<AssetId, Asset>, id: AssetId): map<AssetId, Asset> {
    if id in assets then assets[id := assets[id].(status := Used, usedCount := assets[id].usedCount + 1)] else assets
  }

  function Name(d: Difficulty): string {
    match d
    case Easy => "easy"
    case Medium => "medium"
    case Hard => "hard"
  }

  function Key(prefix: string, templateCode: string, d: Difficulty): string {
    prefix + ":pool:" + templateCode + ":" + Name(d)
  }

  /** Template codes may contain any character, the separator included; difficulty names do not. */
  lemma KeyIsInjective(prefix: string, code1: string, d1: Difficulty, code2: string, d2: Difficulty)
    requires Key(prefix, code1, d1) == Key(prefix, code2, d2)
    ensures code1 == code2 && d1 == d2
  {
    var k1, k2 := Key(prefix, code1, d1), Key(prefix, code2, d2);
    var n := |k1|;
    var front := |prefix + ":pool:"|;
    assert k1[n - |Name(d1)|..] == Name(d1) && k2[n - |Name(d2)|..] == Name(d2);
    assert k1[n - |Name(d1)| - 1] == ':' && k2[n - |Name(d2)| - 1] == ':';
    assert k1[n - 1] == Name(d1)[|Name(d1)| - 1] && k2[n - 1] == Name(d2)[|Name(d2)| - 1];
    assert d1 == d2;
    assert k1[front..n - |Name(d1)| - 1] == code1;
    assert k2[front..n - |Name(d2)| - 1] == code2;
  }
}
