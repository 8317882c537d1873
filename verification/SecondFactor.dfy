// Completing an interrupted sign-in, statement by statement, while other sessions do as they like.
module SecondFactor {
  import opened Common
  import Text
  import Totp
  import Challenges
  import RecoveryCodes

  type UserId = nat

  // hash and hashCode stand for SHA-256, open for decrypting a stored secret.
  datatype Setup = Setup(text: Text.Rules, crypto: Totp.Crypto, open: RecoveryCodes.Secret -> Option<string>,
                         hash: string -> Challenges.Token, hashCode: string -> RecoveryCodes.Code)

  // What the other sessions get done before one of this call's statements; accounts holds the
  // disabled flags they write.
  datatype Others = Others(onChallenges: seq<Challenges.Label>, onCodes: seq<RecoveryCodes.Label>,
                           accounts: map<UserId, bool>)

  // The tables as one of this call's statements finds them.
  datatype Moment = Moment(challenges: Challenges.State, codes: RecoveryCodes.State, disabled: set<UserId>)

  predicate Foreign(run: seq<Challenges.Label>, c: Challenges.CallId) {
    forall i :: 0 <= i < |run| ==> Elsewhere(run[i], c)
  }

  predicate Elsewhere(l: Challenges.Label, c: Challenges.CallId) {
    l.Tick? || l.Sweep? || l.Insert? || l.call != c
  }

  ghost predicate Alone(others: nat -> Others) {
    forall i :: others(i) == Others([], [], map[])
  }

  lemma {:induction false} ForeignRunSpares(s: Challenges.State, run: seq<Challenges.Label>, c: Challenges.CallId)
    requires Foreign(run, c)
    ensures var s' := Challenges.Run(false, s, run);
      (c in s'.calls <==> c in s.calls) && (c in s.calls ==> s'.calls[c] == s.calls[c])
    decreases |run|
  {
    if run != [] {
      assert Elsewhere(run[0], c);
      var s' := if Challenges.Enabled(false, s, run[0]) then Challenges.Apply(false, s, run[0]) else s;
      ForeignRunSpares(s', run[1..], c);
    }
  }

  function Strip(s: string, dropped: set<char>): string {
    if s == [] then [] else Kept(s[0], dropped) + Strip(s[1..], dropped)
  }

  function Kept(c: char, dropped: set<char>): string {
    if c in dropped then [] else [c]
  }

  function NormalizeRecoveryCode(t: Text.Rules, code: string): string {
    Strip(Text.Lower(t, Text.Trim(t.space, code)), {'-', ' '})
  }

  // The account has proved it can produce codes.
  predicate Enrolled(m: RecoveryCodes.Mfa) {
    m.secret.Some? && m.confirmed
  }

  predicate TotpMatches(x: Setup, secret: RecoveryCodes.Secret, code: string, now: int) {
    x.open(secret).Some? &&
    var candidate := Totp.NoSpaces(Text.Trim(x.text.space, code));
    var key := x.crypto.decode(x.open(secret).value);
    |candidate| == Totp.DIGITS && key.Some? && Totp.Accepts(x.crypto, key.value, candidate, now)
  }

  // A recovery code is looked at only when the secret opens and the one-time code is wrong.
  predicate RecoveryMatches(x: Setup, codes: RecoveryCodes.State, user: UserId, secret: RecoveryCodes.Secret,
                            code: string) {
    && x.open(secret).Some? && NormalizeRecoveryCode(x.text, code) != ""
    && RecoveryCodes.Spendable(codes, user, x.hashCode(NormalizeRecoveryCode(x.text, code)))
  }

  // What makes the code good enough, given the account the challenge was made for.
  predicate CodeGood(x: Setup, codes: RecoveryCodes.State, user: UserId, code: string, now: int) {
    && user in codes.mfa && Enrolled(codes.mfa[user])
    && var secret := codes.mfa[user].secret.value;
       TotpMatches(x, secret, code, now) || RecoveryMatches(x, codes, user, secret, code)
  }

  // A recovery code is used up only when it is what let the caller through.
  function AfterSubmit(x: Setup, codes: RecoveryCodes.State, user: UserId, secret: RecoveryCodes.Secret,
                       code: string, now: int): RecoveryCodes.State {
    if !TotpMatches(x, secret, code, now) && RecoveryMatches(x, codes, user, secret, code)
    then Spent(x, codes, user, code)
    else codes
  }

  function CodesAfter(x: Setup, codes: RecoveryCodes.State, user: UserId, code: string, now: int): RecoveryCodes.State {
    if user in codes.mfa && Enrolled(codes.mfa[user])
    then AfterSubmit(x, codes, user, codes.mfa[user].secret.value, code, now)
    else codes
  }

  // The codes a call leaves that began after the first n moments and found the account enrolled or not.
  function CodesThen(x: Setup, past: seq<Moment>, n: nat, user: UserId, code: string): RecoveryCodes.State
    requires n < |past|
  {
    if n + 1 < |past| && user in past[n].codes.mfa && Enrolled(past[n].codes.mfa[user])
    then AfterSubmit(x, past[n + 1].codes, user, past[n].codes.mfa[user].secret.value, code, past[n + 1].challenges.now)
    else past[n].codes
  }

  // Nothing a check reads has changed.
  predicate Alike(m: Moment, before: Moment) {
    m.codes == before.codes && m.disabled == before.disabled && m.challenges.now == before.challenges.now
  }

  lemma AlikeMoments(x: Setup, past: seq<Moment>, n: nat, before: Moment, user: UserId, code: string)
    requires n < |past| <= n + 2 && Alike(past[n], before) && Alike(past[|past| - 1], before)
    requires |past| == n + 2 <==> user in past[n].codes.mfa && Enrolled(past[n].codes.mfa[user])
    ensures CodesThen(x, past, n, user, code) == CodesAfter(x, before.codes, user, code, before.challenges.now)
    ensures CodeGood(x, before.codes, user, code, before.challenges.now) <==>
            |past| == n + 2 && Checked(x, past[n], past[n + 1], user, code)
  {
  }

  function Spent(x: Setup, codes: RecoveryCodes.State, user: UserId, code: string): RecoveryCodes.State
    requires RecoveryCodes.Spendable(codes, user, x.hashCode(NormalizeRecoveryCode(x.text, code)))
  {
    RecoveryCodes.Apply(codes, RecoveryCodes.Spend(user, x.hashCode(NormalizeRecoveryCode(x.text, code))))
  }

  function Switched(disabled: set<UserId>, accounts: map<UserId, bool>): set<UserId> {
    set u | u in disabled + accounts.Keys && (if u in accounts then accounts[u] else u in disabled)
  }

  // A secret, and a confirmed one, when it was read, and the code good for that secret when it was
  // looked at.
  predicate Checked(x: Setup, read: Moment, examined: Moment, user: UserId, code: string) {
    && user in read.codes.mfa && read.codes.mfa[user].secret.Some? && read.codes.mfa[user].confirmed
    && var secret := read.codes.mfa[user].secret.value;
       || TotpMatches(x, secret, code, examined.challenges.now)
       || RecoveryMatches(x, examined.codes, user, secret, code)
  }

  // Every check of a call, each against the tables its own statement found: claim, enrolment,
  // code, (retirement,) account, (session). The call began after the first n moments.
  predicate Passed(x: Setup, past: seq<Moment>, n: nat, token: Challenges.Token, code: string) {
    && |past| == n + 6
    && token in past[n].challenges.challenges
    && past[n].challenges.challenges[token].expires > past[n].challenges.now
    && !past[n].challenges.challenges[token].consumed && past[n].challenges.challenges[token].attempts < 5
    && var user := past[n].challenges.challenges[token].user;
       Checked(x, past[n + 1], past[n + 2], user, code) && user !in past[n + 4].disabled
  }

  // What an undisturbed call on a claimable challenge comes to.
  predicate Completed(x: Setup, before: Moment, after: Moment, token: Challenges.Token, code: string, signedIn: bool)
    requires token in before.challenges.challenges
  {
    var rows, user := before.challenges.challenges, before.challenges.challenges[token].user;
    var good := CodeGood(x, before.codes, user, code, before.challenges.now);
    && signedIn == (good && user !in before.disabled)
    && (if good then Challenges.Dead(after.challenges, token)
        else after.challenges.challenges == Challenges.OneAttempt(rows, token))
    && after.codes == CodesAfter(x, before.codes, user, code, before.challenges.now)
    && after.challenges.claimed == before.challenges.claimed + multiset{token}
    && after.challenges.sessions == before.challenges.sessions + (if signedIn then multiset{token} else multiset{})
  }

  // Dashes and blanks in a typed recovery code do not matter, and nothing else is dropped.
  lemma {:induction false} StripSplits(s: string, t: string, dropped: set<char>)
    ensures Strip(s + t, dropped) == Strip(s, dropped) + Strip(t, dropped)
  {
    if s == [] {
      assert [] + t == t;
    } else {
      StripSplits(s[1..], t, dropped);
      assert (s + t)[1..] == s[1..] + t;
      Regroup(Kept(s[0], dropped), Strip(s[1..], dropped), Strip(t, dropped));
    }
  }

  lemma Regroup(a: string, b: string, c: string)
    ensures a + (b + c) == (a + b) + c
  {
  }

  lemma StripOne(c: char, dropped: set<char>)
    ensures Strip([c], dropped) == if c in dropped then "" else [c]
  {
    assert Strip([c][1..], dropped) == "";
  }

  lemma ActiveIsIssued(s: Challenges.State, c: Challenges.CallId)
    requires Challenges.Inv(s) && c in s.calls
    ensures s.calls[c].token in s.issued
  {
    assert c in Challenges.On(s, s.calls[c].token);
    assert Challenges.TokenHolds(s, s.calls[c].token);
  }

  class Auth {
    const x: Setup
    var challenges: Challenges.State
    var codes: RecoveryCodes.State
    var disabled: set<UserId>
    ghost var past: seq<Moment>  // what each statement so far has found

    ghost function Now(): Moment
      reads this
    {
      Moment(challenges, codes, disabled)
    }

    ghost predicate Valid()
      reads this
    {
      Challenges.Inv(challenges) && RecoveryCodes.Inv(codes)
    }

    constructor (x: Setup)
      ensures Valid() && this.x == x
    {
      this.x, challenges, codes, disabled := x, Challenges.INIT, RecoveryCodes.INIT, {};
      past := [];
      new;
      assert forall k :: Challenges.On(Challenges.INIT, k) == {};
    }

    // One statement of this call on the challenges.
    method Execute(l: Challenges.Label)
      requires Valid() && Challenges.Enabled(false, challenges, l)
      modifies this`challenges
      ensures Valid() && challenges == Challenges.Apply(false, old(challenges), l)
    {
      forall k: Challenges.Token
        ensures Challenges.TokenHolds(Challenges.Apply(false, challenges, l), k)
      {
        Challenges.StepKeepsToken(false, challenges, l, k);
      }
      challenges := Challenges.Apply(false, challenges, l);
    }

    method Interleave(others: Others, c: Challenges.CallId)
      requires Valid() && Foreign(others.onChallenges, c)
      modifies this`challenges, this`codes, this`disabled, this`past
      ensures Valid() && challenges == Challenges.Run(false, old(challenges), others.onChallenges)
      ensures codes == RecoveryCodes.Run(old(codes), others.onCodes)
      ensures (c in challenges.calls <==> c in old(challenges.calls))
      ensures c in challenges.calls ==> challenges.calls[c] == old(challenges.calls[c])
      ensures forall k :: Challenges.Dead(old(challenges), k) ==> Challenges.Dead(challenges, k)
      ensures forall u :: u in disabled <==> if u in others.accounts then others.accounts[u] else u in old(disabled)
      ensures past == old(past) + [Moment(challenges, codes, disabled)]
      ensures others == Others([], [], map[]) ==>
                challenges == old(challenges) && codes == old(codes) && disabled == old(disabled)
    {
      var after := Challenges.Run(false, challenges, others.onChallenges);
      forall k: Challenges.Token
        ensures Challenges.TokenHolds(after, k)
        ensures Challenges.Dead(challenges, k) ==> Challenges.Dead(after, k)
      {
        Challenges.RunKeeps(false, challenges, others.onChallenges, k);
      }
      ForeignRunSpares(challenges, others.onChallenges, c);
      RecoveryCodes.RunKeeps(codes, others.onCodes);
      challenges := after;
      codes := RecoveryCodes.Run(codes, others.onCodes);
      disabled := Switched(disabled, others.accounts);
      past := past + [Moment(challenges, codes, disabled)];
    }

    // The check and the spending are one statement.
    method SpendRecoveryCode(user: UserId, c: RecoveryCodes.Code) returns (ok: bool)
      requires Valid()
      modifies this`codes
      ensures Valid()
      // The account's own, not used yet, and not among those an enrolment under way has deleted.
      ensures ok <==> old(c in codes.codes && codes.codes[c].user == user && !codes.codes[c].used
                          && forall t <- codes.txs :: codes.txs[t].doomed.Some? ==> c !in codes.txs[t].doomed.value)
      ensures codes == if ok then RecoveryCodes.Apply(old(codes), RecoveryCodes.Spend(user, c)) else old(codes)
    {
      ok := RecoveryCodes.Spendable(codes, user, c);
      if ok {
        RecoveryCodes.StepKeeps(codes, RecoveryCodes.Spend(user, c));
        codes := RecoveryCodes.Apply(codes, RecoveryCodes.Spend(user, c));
      }
    }

    method CodeAccepted(user: UserId, secret: RecoveryCodes.Secret, code: string) returns (ok: bool)
      requires Valid()
      modifies this`codes
      ensures Valid()
      ensures ok <==> old(TotpMatches(x, secret, code, challenges.now) || RecoveryMatches(x, codes, user, secret, code))
      ensures codes == old(AfterSubmit(x, codes, user, secret, code, challenges.now))
    {
      if x.open(secret) == None {
        return false;
      }
      ghost var secretKey := x.crypto.decode(x.open(secret).value);
      if secretKey.Some? {
        var candidate := Totp.NoSpaces(Text.Trim(x.text.space, code));
        Totp.AcceptsWithinTheWindow(x.crypto, secretKey.value, candidate, challenges.now);
      }
      var matched := Totp.VerifyTOTP(x.crypto, x.text.space, x.open(secret).value, code, challenges.now);
      if matched {
        return true;
      }
      var normalized := Strip(Text.Lower(x.text, Text.Trim(x.text.space, code)), {'-', ' '});
      if normalized == "" {
        return false;
      }
      ok := SpendRecoveryCode(user, x.hashCode(normalized));
    }

    // The attempt is spent before the code is looked at.
    method Examine(c: Challenges.CallId, token: Challenges.Token, code: string, others: nat -> Others)
      returns (ok: bool)
      requires Valid() && c !in challenges.calls && Challenges.Claimable(challenges, token)
      requires forall i :: Foreign(others(i).onChallenges, c)
      modifies this`challenges, this`codes, this`disabled, this`past
      ensures Valid()
      ensures ok <==> c in challenges.calls
      ensures ok ==> challenges.calls[c].token == token && challenges.calls[c].stage == Challenges.Accepted
      ensures old(past) <= past && |old(past)| < |past| <= |old(past)| + 2
      ensures var user, n := old(challenges.challenges[token].user), |old(past)|;
        && (|past| == n + 2 <==> user in past[n].codes.mfa && Enrolled(past[n].codes.mfa[user]))
        && (ok <==> |past| == n + 2 && Checked(x, past[n], past[n + 1], user, code))
        && (ok ==> challenges.calls[c].user == user)
        && codes == CodesThen(x, past, n, user, code)
      ensures Alone(others) ==>
        && Alike(past[|old(past)|], old(Now())) && Alike(past[|past| - 1], old(Now()))
        && disabled == old(disabled)
        && challenges.claimed == old(challenges.claimed) + multiset{token}
        && challenges.sessions == old(challenges.sessions)
        && challenges.challenges == old(Challenges.OneAttempt(challenges.challenges, token))
    {
      hide Challenges.Inv, RecoveryCodes.Inv;
      var user := ClaimMFAChallenge(c, token);
      Interleave(others(1), c);
      if user !in codes.mfa || !Enrolled(codes.mfa[user]) {
        Execute(Challenges.End(c));
        return false;
      }
      ok := Submit(c, codes.mfa[user].secret.value, code, others(2));
    }

    method ClaimMFAChallenge(c: Challenges.CallId, token: Challenges.Token) returns (user: UserId)
      requires Valid() && c !in challenges.calls && Challenges.Claimable(challenges, token)
      modifies this`challenges
      ensures Valid() && c in challenges.calls
      ensures challenges.calls[c] == Challenges.Call(token, user, Challenges.Claimed)
      ensures user == old(challenges.challenges[token].user)
      ensures challenges.challenges == Challenges.OneAttempt(old(challenges.challenges), token)
      ensures challenges.now == old(challenges.now) && challenges.sessions == old(challenges.sessions)
      ensures challenges.claimed == old(challenges.claimed) + multiset{token}
    {
      Execute(Challenges.Claim(c, token));
      user := challenges.calls[c].user;
    }

    // The code against the secret that was read.
    method Submit(c: Challenges.CallId, secret: RecoveryCodes.Secret, code: string, others: Others) returns (ok: bool)
      requires Valid() && c in challenges.calls && challenges.calls[c].stage == Challenges.Claimed
      requires Foreign(others.onChallenges, c)
      modifies this`challenges, this`codes, this`disabled, this`past
      ensures Valid()
      ensures ok <==> c in challenges.calls
      ensures ok ==> challenges.calls[c] == old(challenges.calls[c]).(stage := Challenges.Accepted)
      ensures |past| == |old(past)| + 1 && old(past) <= past
      ensures var m, user := past[|old(past)|], old(challenges.calls[c].user);
        && (ok <==> TotpMatches(x, secret, code, m.challenges.now) || RecoveryMatches(x, m.codes, user, secret, code))
        && codes == AfterSubmit(x, m.codes, user, secret, code, m.challenges.now)
      ensures others == Others([], [], map[]) ==>
        && Alike(past[|old(past)|], old(Now())) && disabled == old(disabled)
        && challenges == old(challenges).(calls := challenges.calls)
    {
      hide Challenges.Inv, RecoveryCodes.Inv;
      Interleave(others, c);
      var user := challenges.calls[c].user;
      ok := CodeAccepted(user, secret, code);
      Execute(if ok then Challenges.Accept(c) else Challenges.End(c));
    }

    // The half-session is retired before the account is read again and the session made.
    method Conclude(c: Challenges.CallId, others: nat -> Others) returns (signedIn: bool)
      requires Valid() && c in challenges.calls && challenges.calls[c].stage == Challenges.Accepted
      requires forall i :: Foreign(others(i).onChallenges, c)
      modifies this`challenges, this`codes, this`disabled, this`past
      ensures Valid() && c !in challenges.calls
      ensures var token := old(challenges.calls[c].token);
        && Challenges.Dead(challenges, token)
        && old(past) <= past && |past| == |old(past)| + 3
        && (signedIn <==> old(challenges.calls[c].user) !in past[|old(past)| + 1].disabled)
        && (signedIn ==> token in challenges.sessions)
        && (Alone(others) ==>
              && disabled == old(disabled) && codes == old(codes)
              && signedIn == (old(challenges.calls[c].user) !in disabled)
              && challenges.claimed == old(challenges.claimed)
              && challenges.sessions == old(challenges.sessions) + if signedIn then multiset{token} else multiset{})
    {
      hide Challenges.Inv, RecoveryCodes.Inv;
      var user := challenges.calls[c].user;
      Retire(c, others(3));
      Interleave(others(4), c);
      signedIn := user !in disabled;
      Interleave(others(5), c);
      Execute(if signedIn then Challenges.Mint(c) else Challenges.End(c));
    }

    method Retire(c: Challenges.CallId, others: Others)
      requires Valid() && c in challenges.calls && challenges.calls[c].stage == Challenges.Accepted
      requires Foreign(others.onChallenges, c)
      modifies this`challenges, this`codes, this`disabled, this`past
      ensures Valid() && c in challenges.calls
      ensures challenges.calls[c] == old(challenges.calls[c]).(stage := Challenges.Consumed)
      ensures Challenges.Dead(challenges, challenges.calls[c].token)
      ensures |past| == |old(past)| + 1 && old(past) <= past
      ensures others == Others([], [], map[]) ==>
        && codes == old(codes) && disabled == old(disabled)
        && challenges.claimed == old(challenges.claimed) && challenges.sessions == old(challenges.sessions)
    {
      Interleave(others, c);
      ActiveIsIssued(challenges, c);
      Execute(Challenges.Consume(c));
    }

    method VerifySecondFactor(c: Challenges.CallId, challenge: string, code: string, others: nat -> Others)
      returns (signedIn: bool)
      requires Valid() && c !in challenges.calls
      requires forall i :: Foreign(others(i).onChallenges, c)
      modifies this`challenges, this`codes, this`disabled, this`past
      ensures Valid() && c !in challenges.calls
      ensures var token := x.hash(Text.Trim(x.text.space, challenge));
        && old(past) <= past
        && (signedIn <==> Text.Trim(x.text.space, challenge) != "" && Passed(x, past, |old(past)|, token, code))
        && (signedIn ==> Challenges.Dead(challenges, token) && token in challenges.sessions)
      ensures Alone(others) ==>
        var token := x.hash(Text.Trim(x.text.space, challenge));
        var before, after := old(Now()), Now();
        if Text.Trim(x.text.space, challenge) != "" && Challenges.Claimable(before.challenges, token)
        then Completed(x, before, after, token, code, signedIn)
        else !signedIn && after == before
    {
      hide Challenges.Inv, RecoveryCodes.Inv, Completed, Checked;
      var trimmed := Text.Trim(x.text.space, challenge);
      if trimmed == "" {
        return false;
      }
      var token := x.hash(trimmed);
      Interleave(others(0), c);
      if !Challenges.Claimable(challenges, token) {
        return false;
      }
      signedIn := Complete(c, token, code, others);
    }

    // From the claim on.
    method Complete(c: Challenges.CallId, token: Challenges.Token, code: string, others: nat -> Others)
      returns (signedIn: bool)
      requires Valid() && c !in challenges.calls && Challenges.Claimable(challenges, token)
      requires forall i :: Foreign(others(i).onChallenges, c)
      modifies this`challenges, this`codes, this`disabled, this`past
      ensures Valid() && c !in challenges.calls && old(past) <= past
      ensures var user, n := old(challenges.challenges[token].user), |old(past)|;
        signedIn <==> |past| == n + 5 && Checked(x, past[n], past[n + 1], user, code) && user !in past[n + 3].disabled
      ensures signedIn ==> Challenges.Dead(challenges, token) && token in challenges.sessions
      ensures Alone(others) ==> Completed(x, old(Now()), Now(), token, code, signedIn)
    {
      hide Challenges.Inv, RecoveryCodes.Inv, TotpMatches, RecoveryMatches, Checked, CodeGood;
      ghost var user, before, n := challenges.challenges[token].user, Now(), |past|;
      var ok := Examine(c, token, code, others);
      if Alone(others) {
        AlikeMoments(x, past, n, before, user, code);
      }
      if !ok {
        return false;
      }
      signedIn := Conclude(c, others);
    }
  }
}
