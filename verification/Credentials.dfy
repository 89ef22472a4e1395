/** The two halves of the Wi-Fi credentials, written separately over Bluetooth and committed as a pair. */
module Credentials {
  import opened Types

  const SSID_SIZE: nat := 32
  const PSK_SIZE: nat := 64

  /** `ProvCredentials`. */
  datatype Creds = Creds(ssid: seq<byte>, ssidLen: nat, psk: seq<byte>, pskLen: nat)

  datatype Half = Ssid | Psk

  function Size(h: Half): nat { if h.Ssid? then SSID_SIZE else PSK_SIZE }

  function Zeros(n: nat): (z: seq<byte>)
    ensures |z| == n
  {
    seq(n, _ => 0)
  }

  /** A buffer of the given size after `memset` and `memcpy`. */
  function Padded(data: seq<byte>, size: nat): (b: seq<byte>)
    requires |data| <= size
    ensures |b| == size
  {
    data + Zeros(size - |data|)
  }

  /** The data is in front, and every byte after it is zero. */
  lemma PaddedHolds(data: seq<byte>, size: nat)
    requires |data| <= size
    ensures Padded(data, size)[..|data|] == data
    ensures forall i :: |data| <= i < size ==> Padded(data, size)[i] == 0
  {
  }

  const CLEAR: Creds := Creds(Zeros(SSID_SIZE), 0, Zeros(PSK_SIZE), 0)

  predicate Accepts(h: Half, data: seq<byte>) { |data| <= Size(h) }

  function Filled(c: Creds, h: Half, data: seq<byte>): Creds
    requires Accepts(h, data)
  {
    match h
    case Ssid => c.(ssid := Padded(data, SSID_SIZE), ssidLen := |data|)
    case Psk => c.(psk := Padded(data, PSK_SIZE), pskLen := |data|)
  }

  predicate Complete(c: Creds) { c.pskLen != 0 && c.ssidLen != 0 }

  /** `write_ssid` or `write_password` with `data_check`: the new buffer, and the pair committed, if any. */
  function WriteHalf(c: Creds, h: Half, data: seq<byte>): (r: (Creds, seq<Creds>))
    ensures r.1 == [] || r.1 == [r.1[0]]
  {
    if !Accepts(h, data) then (c, [])
    else
      var filled := Filled(c, h, data);
      if Complete(filled) then (CLEAR, [filled]) else (filled, [])
  }

  // ---- what a sequence of writes commits ----

  datatype Write = Write(half: Half, data: seq<byte>)

  /** Which writes fed a commit: the committing write, and the latest accepted write of each half. */
  datatype Commit = Commit(at: nat, ssidAt: nat, pskAt: nat, pair: Creds)

  /** The buffer after the first n writes, the index after the last commit, and all commits. */
  datatype History = History(creds: Creds, since: nat, commits: seq<Commit>)

  /** The latest accepted write of a half in `ws[lo..hi]`; `hi` if there is none. */
  function Latest(ws: seq<Write>, h: Half, lo: nat, hi: nat): (i: nat)
    requires lo <= hi <= |ws|
    ensures lo <= i <= hi
    ensures i < hi ==> ws[i].half == h && Accepts(h, ws[i].data)
    ensures forall j :: lo <= j < hi && ws[j].half == h && Accepts(h, ws[j].data) ==> j <= i < hi
    decreases hi
  {
    if lo == hi then hi
    else if ws[hi - 1].half == h && Accepts(h, ws[hi - 1].data) then hi - 1
    else
      var i := Latest(ws, h, lo, hi - 1);
      if i == hi - 1 then hi else i
  }

  function Record(ws: seq<Write>, n: nat): (r: History)
    requires n <= |ws|
    ensures r.since <= n
  {
    if n == 0 then History(CLEAR, 0, [])
    else
      var prev := Record(ws, n - 1);
      var (creds, pairs) := WriteHalf(prev.creds, ws[n - 1].half, ws[n - 1].data);
      if pairs == [] then History(creds, prev.since, prev.commits)
      else
        var c := Commit(n - 1, Latest(ws, Ssid, prev.since, n), Latest(ws, Psk, prev.since, n), pairs[0]);
        History(creds, n, prev.commits + [c])
  }

  /** The data of a half pending after the first n writes: none, or its latest accepted write since `since`. */
  function Pending(ws: seq<Write>, h: Half, since: nat, n: nat): (data: seq<byte>)
    requires since <= n <= |ws|
    ensures Accepts(h, data)
  {
    var i := Latest(ws, h, since, n);
    if i < n then ws[i].data else []
  }

  ghost predicate BufferIsPending(ws: seq<Write>, n: nat)
    requires n <= |ws|
  {
    var r := Record(ws, n);
    var s, p := Pending(ws, Ssid, r.since, n), Pending(ws, Psk, r.since, n);
    r.creds == Creds(Padded(s, SSID_SIZE), |s|, Padded(p, PSK_SIZE), |p|) && !Complete(r.creds)
  }

  lemma PendingStep(ws: seq<Write>, h: Half, since: nat, n: nat)
    requires since < n <= |ws|
    ensures Pending(ws, h, since, n) ==
            if ws[n - 1].half == h && Accepts(h, ws[n - 1].data) then ws[n - 1].data else Pending(ws, h, since, n - 1)
  {
  }

  lemma NothingPending(ws: seq<Write>, h: Half, n: nat)
    requires n <= |ws|
    ensures Pending(ws, h, n, n) == []
  {
  }

  lemma PaddedEmpty()
    ensures Padded([], SSID_SIZE) == Zeros(SSID_SIZE) && Padded([], PSK_SIZE) == Zeros(PSK_SIZE)
  {
  }

  lemma {:induction false} BufferAlwaysPending(ws: seq<Write>, n: nat)
    requires n <= |ws|
    ensures BufferIsPending(ws, n)
  {
    hide Latest, Pending, Zeros;
    PaddedEmpty();
    if n > 0 {
      BufferAlwaysPending(ws, n - 1);
      PendingStep(ws, Ssid, Record(ws, n - 1).since, n);
      PendingStep(ws, Psk, Record(ws, n - 1).since, n);
    }
    NothingPending(ws, Ssid, n);
    NothingPending(ws, Psk, n);
  }

  /** A commit is made of the latest accepted writes of both halves since the commit before it. */
  ghost predicate WellPaired(ws: seq<Write>, since: nat, c: Commit) {
    && since <= c.ssidAt <= c.at < |ws| && since <= c.pskAt <= c.at
    && (c.ssidAt == c.at || c.pskAt == c.at)
    && ws[c.ssidAt].half == Ssid && ws[c.pskAt].half == Psk
    && 0 < |ws[c.ssidAt].data| <= SSID_SIZE && 0 < |ws[c.pskAt].data| <= PSK_SIZE
    && (forall j :: c.ssidAt < j <= c.at ==> !(ws[j].half == Ssid && Accepts(Ssid, ws[j].data)))
    && (forall j :: c.pskAt < j <= c.at ==> !(ws[j].half == Psk && Accepts(Psk, ws[j].data)))
    && c.pair == Creds(Padded(ws[c.ssidAt].data, SSID_SIZE), |ws[c.ssidAt].data|,
                       Padded(ws[c.pskAt].data, PSK_SIZE), |ws[c.pskAt].data|)
  }

  /** The k-th commit uses only writes after the commit before it. */
  ghost predicate PairedAt(ws: seq<Write>, commits: seq<Commit>, k: nat)
    requires k < |commits|
  {
    WellPaired(ws, if k == 0 then 0 else commits[k - 1].at + 1, commits[k])
  }

  /** Every commit is well paired and uses only writes after the commit before it: no write feeds two commits. */
  ghost predicate AllPaired(ws: seq<Write>, r: History) {
    && (forall k :: 0 <= k < |r.commits| ==> PairedAt(ws, r.commits, k))
    && r.since == if r.commits == [] then 0 else r.commits[|r.commits| - 1].at + 1
  }

  /** A commit takes what is pending of both halves, the committing write included. */
  lemma NextCommitTakesPending(ws: seq<Write>, n: nat)
    requires 0 < n <= |ws| && Record(ws, n).since == n
    ensures var prev, r := Record(ws, n - 1), Record(ws, n);
            var s, p := Pending(ws, Ssid, prev.since, n), Pending(ws, Psk, prev.since, n);
            && s != [] && p != [] && Accepts(ws[n - 1].half, ws[n - 1].data)
            && r.commits == prev.commits + [Commit(
                 n - 1, Latest(ws, Ssid, prev.since, n), Latest(ws, Psk, prev.since, n),
                 Creds(Padded(s, SSID_SIZE), |s|, Padded(p, PSK_SIZE), |p|))]
  {
    hide Latest, Padded;
    BufferAlwaysPending(ws, n - 1);
    PendingStep(ws, Ssid, Record(ws, n - 1).since, n);
    PendingStep(ws, Psk, Record(ws, n - 1).since, n);
  }

  lemma NextCommitPaired(ws: seq<Write>, n: nat)
    requires 0 < n <= |ws| && Record(ws, n).since == n
    ensures var prev, r := Record(ws, n - 1), Record(ws, n);
            && |r.commits| == |prev.commits| + 1 && r.commits[..|prev.commits|] == prev.commits
            && WellPaired(ws, prev.since, r.commits[|prev.commits|]) && r.commits[|prev.commits|].at == n - 1
  {
    hide Padded, Record;
    NextCommitTakesPending(ws, n);
  }

  lemma NoCommitKeeps(ws: seq<Write>, n: nat)
    requires 0 < n <= |ws| && Record(ws, n).since != n
    ensures Record(ws, n).commits == Record(ws, n - 1).commits && Record(ws, n).since == Record(ws, n - 1).since
  {
    hide WriteHalf;
  }

  lemma {:induction false} CommitsAreWellPaired(ws: seq<Write>, n: nat)
    requires n <= |ws|
    ensures AllPaired(ws, Record(ws, n))
  {
    if n > 0 {
      hide AllPaired;
      CommitsAreWellPaired(ws, n - 1);
      if Record(ws, n).since == n {
        CommitKeepsPaired(ws, n);
      } else {
        NoCommitKeepsPaired(ws, n);
      }
    }
  }

  lemma NoCommitKeepsPaired(ws: seq<Write>, n: nat)
    requires 0 < n <= |ws| && Record(ws, n).since != n && AllPaired(ws, Record(ws, n - 1))
    ensures AllPaired(ws, Record(ws, n))
  {
    NoCommitKeeps(ws, n);
    hide WellPaired, Record;
    PairedPrefix(ws, Record(ws, n - 1).commits, Record(ws, n).commits);
  }

  lemma PairedPrefix(ws: seq<Write>, prev: seq<Commit>, r: seq<Commit>)
    requires prev <= r && forall k :: 0 <= k < |prev| ==> PairedAt(ws, prev, k)
    ensures forall k :: 0 <= k < |prev| ==> PairedAt(ws, r, k)
  {
    hide WellPaired;
    forall k | 0 <= k < |prev| ensures PairedAt(ws, r, k) {
      assert PairedAt(ws, prev, k);
    }
  }

  lemma CommitKeepsPaired(ws: seq<Write>, n: nat)
    requires 0 < n <= |ws| && Record(ws, n).since == n && AllPaired(ws, Record(ws, n - 1))
    ensures AllPaired(ws, Record(ws, n))
  {
    hide WellPaired, Record;
    NextCommitPaired(ws, n);
    PairedPrefix(ws, Record(ws, n - 1).commits, Record(ws, n).commits);
  }

  /** The n-th write commits exactly if afterwards both halves have a nonempty latest write; then nothing is pending. */
  lemma CommitsIff(ws: seq<Write>, n: nat)
    requires 0 < n <= |ws|
    ensures var prev, r := Record(ws, n - 1), Record(ws, n);
            && (|r.commits| == |prev.commits| + 1 <==>
                  Accepts(ws[n - 1].half, ws[n - 1].data)
                  && Pending(ws, Ssid, prev.since, n) != [] && Pending(ws, Psk, prev.since, n) != [])
            && (r.commits == prev.commits || r.creds == CLEAR)
            && !Complete(r.creds)
            && (!Accepts(ws[n - 1].half, ws[n - 1].data) ==> r == prev)
  {
    hide Latest, Padded;
    BufferAlwaysPending(ws, n - 1);
    BufferAlwaysPending(ws, n);
    PendingStep(ws, Ssid, Record(ws, n - 1).since, n);
    PendingStep(ws, Psk, Record(ws, n - 1).since, n);
  }
}
