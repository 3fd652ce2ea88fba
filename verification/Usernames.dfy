/** generateUsername of internal/core/service/auth.go, and the rule that
    usernameValidator puts on usernames. */
module Usernames {
  import opened Sets

  /** The characters of [a-zA-Z0-9_.]. */
  predicate Good(c: char) {
    'a' <= c <= 'z' || 'A' <= c <= 'Z' || '0' <= c <= '9' || c == '_' || c == '.'
  }

  predicate AllGood(s: string) {
    forall i :: 0 <= i < |s| ==> Good(s[i])
  }

  /** usernameValidator */
  predicate ValidUsername(s: string) {
    |s| >= 3 && AllGood(s)
  }

  /** What comes before the first @, or everything. */
  function Local(email: string): (r: string)
    ensures r <= email && '@' !in r
    ensures r == email || email[|r|] == '@'
  {
    if email == "" || email[0] == '@' then "" else [email[0]] + Local(email[1..])
  }

  /** Every run of other characters becomes one underscore; inRun tells that
      the run that s starts in has already become one. */
  function Squeeze(s: string, inRun: bool): (r: string)
    ensures AllGood(r)
    ensures AllGood(s) ==> r == s
  {
    if s == "" then ""
    else if Good(s[0]) then [s[0]] + Squeeze(s[1..], false)
    else if inRun then Squeeze(s[1..], true)
    else "_" + Squeeze(s[1..], true)
  }

  lemma {:induction false} SqueezeSkipsRun(bad: string, b: string)
    requires forall i :: 0 <= i < |bad| ==> !Good(bad[i])
    requires b == "" || Good(b[0])
    ensures Squeeze(bad + b, true) == Squeeze(b, false)
  {
    if bad == "" {
      assert bad + b == b;
    } else {
      assert (bad + b)[1..] == bad[1..] + b;
      SqueezeSkipsRun(bad[1..], b);
    }
  }

  /** The leftmost longest run of other characters becomes one underscore and
      the rest is treated alike. */
  lemma {:induction false} SqueezeReplacesRun(a: string, bad: string, b: string)
    requires AllGood(a) && bad != "" && forall i :: 0 <= i < |bad| ==> !Good(bad[i])
    requires b == "" || Good(b[0])
    ensures Squeeze(a + bad + b, false) == a + "_" + Squeeze(b, false)
  {
    var s := a + bad + b;
    if a == "" {
      assert s[1..] == bad[1..] + b && s[0] == bad[0];
      SqueezeSkipsRun(bad[1..], b);
    } else {
      assert s[1..] == a[1..] + bad + b;
      SqueezeReplacesRun(a[1..], bad, b);
    }
  }

  function Base(email: string): (r: string)
    ensures ValidUsername(r)
    ensures ValidUsername(Local(email)) ==> r == Local(email)
    ensures var name := Squeeze(Local(email), false);
      if |name| >= 3 then r == name else |r| == |name| + 5 && r[..5] == "user_" && r[5..] == name
  {
    var name := Squeeze(Local(email), false);
    if |name| < 3 then "user_" + name else name
  }

  /** uidGen's results end in hexadecimal digits. */
  ghost predicate GoodUids(uids: nat -> string) {
    forall i :: GoodUid(uids(i))
  }

  predicate GoodUid(uid: string) {
    |uid| >= 4 && AllGood(uid[|uid| - 4..])
  }

  /** An underscore and the last four characters of a uid, appended. */
  function Extended(name: string, uid: string): (r: string)
    requires GoodUid(uid)
    ensures |r| == |name| + 5 && (AllGood(name) ==> AllGood(r))
    ensures name <= r && r[|name|] == '_' && r[|name| + 1..] == uid[|uid| - 4..]
  {
    name + "_" + uid[|uid| - 4..]
  }

  /** The name tried in round n; uids(i) is what uidGen gives in round i. */
  ghost function Candidate(email: string, uids: nat -> string, n: nat): (r: string)
    requires GoodUids(uids)
    ensures ValidUsername(r) && |r| == |Base(email)| + 5 * n
  {
    if n == 0 then Base(email)
    else
      assert GoodUid(uids(n - 1));
      Extended(Candidate(email, uids, n - 1), uids(n - 1))
  }

  /** The taken names that a candidate of this length or longer could meet. */
  function LongNames(taken: set<string>, length: nat): set<string> {
    set t | t in taken && |t| >= length
  }

  lemma LongNamesShrink(taken: set<string>, name: string)
    requires name in taken
    ensures |LongNames(taken, |name| + 5)| < |LongNames(taken, |name|)|
  {
    assert LongNames(taken, |name| + 5) <= LongNames(taken, |name|) - {name};
    SubsetSize(LongNames(taken, |name| + 5), LongNames(taken, |name|) - {name});
  }

  lemma LongNamesAtMost(taken: set<string>, length: nat)
    ensures |LongNames(taken, length)| <= |taken|
  {
    SubsetSize(LongNames(taken, length), taken);
  }

  ghost predicate Collides(email: string, taken: set<string>, uids: nat -> string, lookupFails: nat -> bool, i: nat)
    requires GoodUids(uids)
  {
    Candidate(email, uids, i) in taken && !lookupFails(i)
  }

  method FirstCandidate(email: string) returns (username: string)
    ensures username == Base(email)
  {
    username := Squeeze(Local(email), false);
    if |username| < 3 {
      username := "user_" + username;
    }
  }

  /** generateUsername: the first candidate that is not taken, found within
      |taken| + 1 rounds; a lookup that fails ends the search there. */
  method GenerateUsername(email: string, taken: set<string>, uids: nat -> string, lookupFails: nat -> bool)
    returns (username: string, rounds: nat)
    requires GoodUids(uids)
    ensures ValidUsername(username) && username == Candidate(email, uids, rounds)
    ensures username !in taken || lookupFails(rounds)
    ensures forall i: nat :: i < rounds ==> Collides(email, taken, uids, lookupFails, i)
    ensures rounds <= |taken|
  {
    username := FirstCandidate(email);
    rounds := 0;
    LongNamesAtMost(taken, |username|);
    while username in taken && !lookupFails(rounds)
      invariant username == Candidate(email, uids, rounds)
      invariant forall i: nat :: i < rounds ==> Collides(email, taken, uids, lookupFails, i)
      invariant rounds + |LongNames(taken, |username|)| <= |taken|
      decreases |LongNames(taken, |username|)|
    {
      LongNamesShrink(taken, username);
      assert GoodUid(uids(rounds)) && Collides(email, taken, uids, lookupFails, rounds);
      var randSuffix := uids(rounds);
      username := Extended(username, randSuffix);
      rounds := rounds + 1;
    }
  }
}
