/** The input of the pairwise-subject MAC (util/oidc.go; section 8.1 of OpenID
    Connect Core 1.0): ids separated by NUL bytes, then a version if there is one. */
module PairwiseSubject {
  import opened Encoding

  const NUL: byte := 0

  /** strconv.Itoa of a positive number: its decimal digits. */
  function Digits(n: nat): (d: Bytes)
    requires n > 0
    ensures d != [] && forall i :: 0 <= i < |d| ==> 48 <= d[i] < 58
  {
    (if n < 10 then [] else Digits(n / 10)) + [48 + n % 10]
  }

  function MacInput(user: Bytes, workspace: Bytes, client: Bytes, version: int): Bytes {
    client + [NUL] + user + [NUL] + workspace + if version > 0 then [NUL] + Digits(version) else []
  }

  /** The source writes its input to the MAC piece by piece; `written` is what the
      MAC has been fed. */
  method FeedMac(user: Bytes, workspace: Bytes, client: Bytes, version: int) returns (written: Bytes)
    ensures written == MacInput(user, workspace, client, version)
  {
    written := client;
    written := written + [NUL];
    written := written + user;
    written := written + [NUL];
    written := written + workspace;
    if version > 0 {
      ghost var w := written;
      written := written + [NUL];
      written := written + Digits(version);
      assert written == w + ([NUL] + Digits(version));
    } else {
      assert written == written + [];
    }
  }

  lemma {:induction false} DigitsInjective(m: nat, n: nat)
    requires m > 0 && n > 0 && Digits(m) == Digits(n)
    ensures m == n
  {
    var d, e := Digits(m), Digits(n);
    assert d[|d| - 1] == 48 + m % 10 && e[|e| - 1] == 48 + n % 10;
    assert d[..|d| - 1] == if m < 10 then [] else Digits(m / 10);
    assert e[..|e| - 1] == if n < 10 then [] else Digits(n / 10);
    if m >= 10 && n >= 10 {
      DigitsInjective(m / 10, n / 10);
    }
  }

  /** A NUL-free id ends where the first NUL after it stands. */
  lemma SplitAtNul(a: Bytes, x: Bytes, b: Bytes, y: Bytes)
    requires NUL !in a && NUL !in b
    requires a + [NUL] + x == b + [NUL] + y
    ensures a == b && x == y
  {
    var s, t := a + [NUL] + x, b + [NUL] + y;
    assert s[|a|] == NUL && t[|b|] == NUL;
    assert forall i :: 0 <= i < |a| ==> s[i] == a[i] && s[i] != NUL;
    assert forall i :: 0 <= i < |b| ==> t[i] == b[i] && t[i] != NUL;
    assert |a| == |b|;
    assert s[..|a|] == a && t[..|b|] == b;
    assert s[|a| + 1..] == x && t[|b| + 1..] == y;
  }

  lemma TailUnique(a: Bytes, x: Bytes, b: Bytes, y: Bytes)
    requires NUL !in a && NUL !in b && NUL !in x && NUL !in y
    requires a + (if x == [] then [] else [NUL] + x) == b + if y == [] then [] else [NUL] + y
    ensures a == b && x == y
  {
    var s := a + if x == [] then [] else [NUL] + x;
    assert x != [] ==> s[|a|] == NUL;
    assert y != [] ==> s[|b|] == NUL;
    assert x == [] ==> s == a;
    assert y == [] ==> s == b;
    if x != [] {
      assert a + ([NUL] + x) == a + [NUL] + x && b + ([NUL] + y) == b + [NUL] + y;
      SplitAtNul(a, x, b, y);
    }
  }

  predicate NulFree(user: Bytes, workspace: Bytes, client: Bytes) {
    NUL !in user && NUL !in workspace && NUL !in client
  }

  function Suffix(version: int): (s: Bytes)
    ensures NUL !in s && (s == [] <==> version <= 0)
  {
    if version > 0 then Digits(version) else []
  }

  /** The input determines everything it is made of: two subjects are derived from
      one input exactly when they are one person's, from one workspace, at one
      service, and in one version. Every version below one is the first. */
  lemma MacInputUnique(user: Bytes, workspace: Bytes, client: Bytes, version: int,
                       user': Bytes, workspace': Bytes, client': Bytes, version': int)
    requires NulFree(user, workspace, client) && NulFree(user', workspace', client')
    ensures MacInput(user, workspace, client, version) == MacInput(user', workspace', client', version')
            <==> user == user' && workspace == workspace' && client == client'
                 && (version == version' || (version <= 0 && version' <= 0))
  {
    if MacInput(user, workspace, client, version) == MacInput(user', workspace', client', version') {
      InputSplits(user, workspace, client, version);
      InputSplits(user', workspace', client', version');
      SplitAtNul(client, user + [NUL] + Tail(workspace, version), client', user' + [NUL] + Tail(workspace', version'));
      SplitAtNul(user, Tail(workspace, version), user', Tail(workspace', version'));
      TailUnique(workspace, Suffix(version), workspace', Suffix(version'));
      if version > 0 && version' > 0 {
        DigitsInjective(version, version');
      }
    }
  }

  function Tail(workspace: Bytes, version: int): Bytes {
    workspace + if Suffix(version) == [] then [] else [NUL] + Suffix(version)
  }

  lemma InputSplits(user: Bytes, workspace: Bytes, client: Bytes, version: int)
    ensures MacInput(user, workspace, client, version)
         == client + [NUL] + (user + [NUL] + Tail(workspace, version))
  {
  }
}
