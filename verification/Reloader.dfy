/** The memoising TLS certificate reloader, and the reloader that tries again on every handshake. */
module Reloader {

  import opened Options

  /** Modification time and size of the certificate and the key file. */
  datatype FilesState = FilesState(certTime: int, certSize: int, keyTime: int, keySize: int)

  /** A parsed pair; `covers` tells whether the leaf verifies for the server name. */
  datatype Certificate = Certificate(der: string, covers: bool, notBefore: int, notAfter: int)

  /** What the files hold in each state; nothing when the pair does not load or parse. */
  type World = FilesState -> Option<Certificate>

  /**
   * What one handshake sees: the stat before the memo check, the stats before and after loading (`None`
   * where a stat fails), and the clock. `early` tells how a load from changing files fails.
   */
  datatype Look = Look(first: Option<FilesState>, before: Option<FilesState>, after: Option<FilesState>, now: int,
                       early: bool)

  datatype Outcome = Loaded(cert: Certificate, state: FilesState) | NotYetValid | LoadFailed

  function Load(world: World, look: Look): Outcome
  {
    if look.before.None? then LoadFailed
    else if look.before != look.after then (if look.early then NotYetValid else LoadFailed)
    else
      var pair := world(look.before.value);
      if pair.None? || !pair.value.covers then LoadFailed
      else if look.now < pair.value.notBefore then NotYetValid
      else if look.now >= pair.value.notAfter then LoadFailed
      else Loaded(pair.value, look.before.value)
  }

  /** The reloader's fields. */
  datatype Memo = Memo(cert: Certificate, state: FilesState, failedState: Option<FilesState>)

  predicate Skips(m: Memo, first: FilesState)
  {
    first == m.state || m.failedState == Some(first)
  }

  function Handshake(world: World, m: Memo, look: Look): Memo
  {
    if look.first.None? || Skips(m, look.first.value) then m
    else
      match Load(world, look)
      case Loaded(cert, state) => Memo(cert, state, None)
      case NotYetValid => m.(failedState := None)
      case LoadFailed => m.(failedState := look.first)
  }

  /** The reference: every handshake that can stat the files tries to load them. */
  function RetryAlways(world: World, cert: Certificate, look: Look): Certificate
  {
    if look.first.None? then cert
    else
      match Load(world, look)
      case Loaded(c, _) => c
      case _ => cert
  }

  class CertificateReloader {
    var cert: Certificate
    var state: FilesState
    var failedReloadState: FilesState
    var hasFailedReload: bool

    ghost function Fields(): Memo
      reads this
    {
      Memo(cert, state, if hasFailedReload then Some(failedReloadState) else None)
    }

    constructor (cert: Certificate, state: FilesState)
      ensures Fields() == Memo(cert, state, None)
    {
      this.cert, this.state, failedReloadState, hasFailedReload := cert, state, state, false;
    }

    method GetCertificate(world: World, look: Look) returns (c: Certificate)
      modifies this
      ensures Fields() == Handshake(world, old(Fields()), look) && c == Fields().cert
    {
      if look.first.None? { return cert; }
      var current := look.first.value;
      if current == state || (hasFailedReload && current == failedReloadState) { return cert; }
      match Load(world, look) {
        case Loaded(reloaded, loadedState) =>
          cert, state, hasFailedReload := reloaded, loadedState, false;
        case NotYetValid =>
          failedReloadState, hasFailedReload := current, false;
        case LoadFailed =>
          failedReloadState, hasFailedReload := current, true;
      }
      return cert;
    }
  }

  // ----- runs of handshakes -----

  /** Everything seen, in order: three stats for each handshake. */
  function Seen(looks: seq<Look>, i: nat): Option<FilesState>
    requires i < 3 * |looks|
  {
    var l := looks[i / 3];
    if i % 3 == 0 then l.first else if i % 3 == 1 then l.before else l.after
  }

  /** A state that was replaced does not come back. */
  ghost predicate NeverRecurs(looks: seq<Look>)
  {
    forall i: nat, j: nat, k: nat ::
      i < j < k < 3 * |looks| && Seen(looks, j).Some? && Seen(looks, i) == Seen(looks, k) ==>
        Seen(looks, i).None? || Seen(looks, j) == Seen(looks, i)
  }

  ghost predicate ClockForward(looks: seq<Look>)
  {
    forall i, j :: 0 <= i < j < |looks| ==> looks[i].now <= looks[j].now
  }

  /** Replaced states stay replaced, and the clock runs forward. */
  ghost predicate Orderly(looks: seq<Look>)
  {
    NeverRecurs(looks) && ClockForward(looks)
  }

  function MemoAfter(world: World, m: Memo, looks: seq<Look>, n: nat): Memo
    requires n <= |looks|
  {
    if n == 0 then m else Handshake(world, MemoAfter(world, m, looks, n - 1), looks[n - 1])
  }

  function RetryAfter(world: World, cert: Certificate, looks: seq<Look>, n: nat): Certificate
    requires n <= |looks|
  {
    if n == 0 then cert else RetryAlways(world, RetryAfter(world, cert, looks, n - 1), looks[n - 1])
  }

  /** The reloader as `newTLSCertificateReloader` leaves it. */
  ghost predicate JustLoaded(world: World, m: Memo)
  {
    world(m.state) == Some(m.cert) && m.failedState.None?
  }

  /** A handshake whose files are not replaced between its first stat and its load. */
  predicate Quiet(look: Look)
  {
    look.first.Some? ==> look.before == look.first
  }

  /** From handshake `n` on, no quiet handshake that finds `failed` can load it. */
  ghost predicate Hopeless(world: World, failed: FilesState, looks: seq<Look>, n: nat)
  {
    forall i :: n <= i < |looks| && looks[i].first == Some(failed) && Quiet(looks[i]) ==> !Load(world, looks[i]).Loaded?
  }

  /** The handshake found the files, but a `stat` failed while it loaded them. */
  predicate StatFailed(look: Look)
  {
    look.first.Some? && (look.before.None? || look.after.None?)
  }

  /** The handshake, among the first `n`, whose failed load the memo still remembers. */
  function Blamed(world: World, m: Memo, looks: seq<Look>, n: nat): (j: Option<nat>)
    requires n <= |looks|
    ensures j.Some? ==> j.value < n
  {
    if n == 0 then None
    else
      var before, look := MemoAfter(world, m, looks, n - 1), looks[n - 1];
      if look.first.None? || Skips(before, look.first.value) then Blamed(world, m, looks, n - 1)
      else if Load(world, look).LoadFailed? then Some(n - 1)
      else None
  }

  /** What is true of the failed state that the memo remembers before handshake `n`. */
  ghost predicate Remembered(world: World, m: Memo, looks: seq<Look>, n: nat, failed: FilesState)
    requires n <= |looks|
  {
    var j := Blamed(world, m, looks, n);
    j.Some? && looks[j.value].first == Some(failed) && (StatFailed(looks[j.value]) || Hopeless(world, failed, looks, n))
  }

  /** What the memo may rely on before handshake `n`. */
  ghost predicate Sound(world: World, m: Memo, looks: seq<Look>, n: nat)
    requires n <= |looks|
  {
    var memo := MemoAfter(world, m, looks, n);
    && world(memo.state) == Some(memo.cert)
    && (memo.failedState.Some? ==> Remembered(world, m, looks, n, memo.failedState.value))
  }

  /**
   * A load of `first` that failed with every `stat` answered will keep failing: the state was replaced,
   * or it is bad for good.
   */
  lemma FailureLasts(world: World, looks: seq<Look>, n: nat)
    requires Orderly(looks) && n < |looks| && !StatFailed(looks[n])
    requires looks[n].first.Some? && Load(world, looks[n]).LoadFailed?
    ensures Hopeless(world, looks[n].first.value, looks, n + 1)
  {
    var x := looks[n].first;
    forall i | n + 1 <= i < |looks| && looks[i].first == x && Quiet(looks[i]) ensures !Load(world, looks[i]).Loaded? {
      assert Seen(looks, 3 * n) == x && Seen(looks, 3 * i) == x;
      assert Seen(looks, 3 * n + 1) == looks[n].before && Seen(looks, 3 * n + 2) == looks[n].after;
      assert looks[n].before == x && looks[n].after == x;
      assert looks[n].now <= looks[i].now;
    }
  }

  lemma {:induction false} RunIsSound(world: World, m: Memo, looks: seq<Look>, n: nat)
    requires JustLoaded(world, m) && Orderly(looks) && n <= |looks|
    ensures Sound(world, m, looks, n)
  {
    if n > 0 {
      RunIsSound(world, m, looks, n - 1);
      var before, look := MemoAfter(world, m, looks, n - 1), looks[n - 1];
      if look.first.Some? && !Skips(before, look.first.value) && Load(world, look).LoadFailed? && !StatFailed(look) {
        FailureLasts(world, looks, n - 1);
      }
    }
  }

  /**
   * A handshake is raced: its first `stat` was memoised, so it is skipped, but the files are replaced
   * right after that `stat` by a pair that loads and differs from the certificate in use.
   */
  predicate Raced(world: World, m: Memo, look: Look)
  {
    && look.first.Some? && Skips(m, look.first.value) && !Quiet(look)
    && Load(world, look).Loaded? && Load(world, look).cert != m.cert
  }

  ghost predicate RacedAt(world: World, m: Memo, looks: seq<Look>, k: nat)
  {
    k < |looks| && Raced(world, MemoAfter(world, m, looks, k), looks[k])
  }

  /**
   * Handshake `k` is blinded: a good pair is skipped because an earlier handshake memoised its state after
   * a `stat` that failed during the load.
   */
  ghost predicate BlindedAt(world: World, m: Memo, looks: seq<Look>, k: nat)
  {
    && k < |looks| && looks[k].first.Some? && Quiet(looks[k])
    && var memo := MemoAfter(world, m, looks, k);
       && memo.failedState == looks[k].first
       && Load(world, looks[k]).Loaded? && Load(world, looks[k]).cert != memo.cert
       && var j := Blamed(world, m, looks, k);
          j.Some? && StatFailed(looks[j.value]) && looks[j.value].first == looks[k].first
  }

  /** From equal certificates, one handshake makes the two reloaders differ exactly when it is raced or blinded. */
  lemma DivergesExactly(world: World, m: Memo, looks: seq<Look>, n: nat)
    requires JustLoaded(world, m) && Orderly(looks) && n < |looks|
    ensures var before := MemoAfter(world, m, looks, n);
            Handshake(world, before, looks[n]).cert != RetryAlways(world, before.cert, looks[n]) <==>
            RacedAt(world, m, looks, n) || BlindedAt(world, m, looks, n)
  {
    RunIsSound(world, m, looks, n);
    var before, look := MemoAfter(world, m, looks, n), looks[n];
    if look.first.Some? && Quiet(look) && before.failedState == look.first && Load(world, look).Loaded? {
      assert !Hopeless(world, look.first.value, looks, n);
    }
  }

  /** The pair may be served: it covers the server name and is valid now. */
  predicate Usable(c: Certificate, now: int)
  {
    c.covers && c.notBefore <= now < c.notAfter
  }

  /** A load succeeds exactly on a usable pair that did not change meanwhile, and yields that pair. */
  lemma LoadMeaning(world: World, look: Look, c: Certificate, s: FilesState)
    ensures Load(world, look) == Loaded(c, s) <==>
            look.before == Some(s) && look.after == Some(s) && world(s) == Some(c) && Usable(c, look.now)
  {
  }

  /**
   * A handshake during which the files stay as they are and hold a usable pair returns exactly that pair, whatever
   * replacements earlier handshakes ran into, unless it is blinded.
   */
  lemma QuietHandshakeIsFresh(world: World, m: Memo, looks: seq<Look>, n: nat, c: Certificate)
    requires JustLoaded(world, m) && Orderly(looks) && n < |looks|
    requires var look := looks[n];
             && look.first.Some? && look.before == look.first && look.after == look.first
             && world(look.first.value) == Some(c) && c.covers && c.notBefore <= look.now < c.notAfter
    ensures MemoAfter(world, m, looks, n + 1).cert == c <==> !BlindedAt(world, m, looks, n)
  {
    LoadMeaning(world, looks[n], c, looks[n].first.value);
    DivergesExactly(world, m, looks, n);
  }

  /** After `k` handshakes the reloader and the one that always retries hold the same certificate. */
  ghost predicate AgreeAt(world: World, m: Memo, looks: seq<Look>, k: nat)
  {
    k <= |looks| && MemoAfter(world, m, looks, k).cert == RetryAfter(world, m.cert, looks, k)
  }

  lemma AgreementStep(world: World, m: Memo, looks: seq<Look>, k: nat)
    requires JustLoaded(world, m) && Orderly(looks) && k < |looks|
    requires AgreeAt(world, m, looks, k)
    ensures AgreeAt(world, m, looks, k + 1) <==> !RacedAt(world, m, looks, k) && !BlindedAt(world, m, looks, k)
  {
    DivergesExactly(world, m, looks, k);
  }

  /**
   * The reloader returns on every handshake what retrying every time returns, if and only if no handshake
   * is raced and none is blinded.
   */
  lemma {:induction false} RefinesRetryExactly(world: World, m: Memo, looks: seq<Look>, n: nat)
    requires JustLoaded(world, m) && Orderly(looks) && n <= |looks|
    ensures (forall k: nat :: k <= n ==> AgreeAt(world, m, looks, k)) <==>
            (forall k: nat :: k < n ==> !RacedAt(world, m, looks, k) && !BlindedAt(world, m, looks, k))
  {
    if n == 0 {
      assert AgreeAt(world, m, looks, 0);
    } else {
      RefinesRetryExactly(world, m, looks, n - 1);
      if AgreeAt(world, m, looks, n - 1) {
        AgreementStep(world, m, looks, n - 1);
      }
    }
  }

  /**
   * What a caller can see to: if no files are replaced in mid-handshake and every `stat` of a load is
   * answered, the two agree throughout.
   */
  lemma QuietRunsRefineRetry(world: World, m: Memo, looks: seq<Look>, n: nat)
    requires JustLoaded(world, m) && Orderly(looks) && n <= |looks|
    requires forall i :: 0 <= i < n ==> Quiet(looks[i]) && !StatFailed(looks[i])
    ensures MemoAfter(world, m, looks, n).cert == RetryAfter(world, m.cert, looks, n)
  {
    RefinesRetryExactly(world, m, looks, n);
    assert AgreeAt(world, m, looks, n);
  }

  /** The race happens: the files are replaced between the first `stat` and the load. */
  lemma RacedHandshakeDiffers(world: World, one: Certificate, two: Certificate, s: FilesState, t: FilesState, now: int)
    requires one != two && s != t && world(s) == Some(one) && world(t) == Some(two)
    requires two.covers && two.notBefore <= now < two.notAfter
    ensures var looks := [Look(Some(s), Some(t), Some(t), now, false)];
            && JustLoaded(world, Memo(one, s, None)) && Orderly(looks)
            && MemoAfter(world, Memo(one, s, None), looks, 1).cert == one != two == RetryAfter(world, one, looks, 1)
  {
    var m, look := Memo(one, s, None), Look(Some(s), Some(t), Some(t), now, false);
    var looks := [look];
    assert Load(world, look) == Loaded(two, t);
    assert MemoAfter(world, m, looks, 0) == m && RetryAfter(world, one, looks, 0) == one;
    assert Seen(looks, 0) == Some(s) && Seen(looks, 1) == Some(t) && Seen(looks, 2) == Some(t);
  }

  /**
   * Blinding happens: a `stat` that fails during a load is memoised like a bad pair, and the good pair is
   * then hidden for as long as the files stay as they are.
   */
  lemma {:induction false} FailedStatHidesGoodPair(world: World, m: Memo, t: FilesState, n: nat)
    requires JustLoaded(world, m) && t != m.state
    ensures var vanished, still := Look(Some(t), Some(t), None, 0, false), Look(Some(t), Some(t), Some(t), 0, false);
            var looks := [vanished] + seq(n, _ => still);
            && Orderly(looks) && MemoAfter(world, m, looks, n + 1) == m.(failedState := Some(t))
            && (n > 0 && Load(world, still).Loaded? ==>
                RetryAfter(world, m.cert, looks, n + 1) == Load(world, still).cert)
  {
    var vanished, still := Look(Some(t), Some(t), None, 0, false), Look(Some(t), Some(t), Some(t), 0, false);
    var looks := [vanished] + seq(n, _ => still);
    assert MemoAfter(world, m, looks, 0) == m;
    var k := 1;
    while k < n + 1
      invariant 1 <= k <= n + 1 && MemoAfter(world, m, looks, k) == m.(failedState := Some(t))
    {
      assert looks[k] == still;
      k := k + 1;
    }
    assert n > 0 ==> looks[n] == still;
  }

  /** Only a pair that covers the server name and is valid now ever displaces the current one. */
  lemma {:induction false} OnlyValidDisplaces(world: World, m: Memo, looks: seq<Look>, n: nat)
    requires n <= |looks|
    ensures var c := MemoAfter(world, m, looks, n).cert;
            c == m.cert || exists i :: 0 <= i < n && c.covers && c.notBefore <= looks[i].now < c.notAfter
                                       && looks[i].before.Some? && looks[i].before == looks[i].after
                                       && world(looks[i].before.value) == Some(c)
  {
    if n > 0 {
      OnlyValidDisplaces(world, m, looks, n - 1);
      var c := MemoAfter(world, m, looks, n).cert;
      if c != MemoAfter(world, m, looks, n - 1).cert {
        assert Load(world, looks[n - 1]).Loaded?;
      }
    }
  }
}
