/** The on-disk redo log: its format, the flushes of a commit and of a recovery, and what a crash leaves behind. */
module LogCrash {
  import opened Blocks

  const MAXOPBLOCKS: nat := 10
  const LOGSIZE: nat := 30

  /** Block number to contents. */
  type Disk = map<nat, Block>

  /** One `buffer::flush`, the atomic step of the disk. */
  datatype Flush = Flush(block: nat, value: Block)

  // The header block.

  /** The block numbers that a header block announces. */
  ghost function HeaderBlocks(b: Block): (blocks: seq<nat>)
    ensures |blocks| <= LOGSIZE
  {
    WordsAt(b, 1, if WordAt(b, 0) <= LOGSIZE then WordAt(b, 0) else LOGSIZE)
  }

  /** `with_write::<LogHeader>` overwrites the first 31 words of a buffer and keeps the rest. */
  function EncodeHeader(n: Word, block: seq<Word>, buffer: Block): Block
    requires |block| == LOGSIZE
  {
    PutWords(buffer, 0, [n] + block)
  }

  lemma {:induction false} HeaderRoundTrip(n: Word, block: seq<Word>, buffer: Block)
    requires n <= LOGSIZE == |block|
    ensures WordAt(EncodeHeader(n, block, buffer), 0) == n
    ensures HeaderBlocks(EncodeHeader(n, block, buffer)) == block[..n]
  {
    var b := EncodeHeader(n, block, buffer);
    forall j | 0 <= j < 1 + LOGSIZE
      ensures WordAt(b, j) == ([n] + block)[j]
    {
      PutWordsGet(buffer, 0, [n] + block, j);
    }
  }

  predicate Cleared(b: Block) {
    WordAt(b, 0) == 0
  }

  ghost predicate Announces(b: Block, blocks: seq<nat>) {
    WordAt(b, 0) == |blocks| <= LOGSIZE && HeaderBlocks(b) == blocks
  }

  // The log area.

  /** Where the log lives: the header at `start`, then up to `size - 1` logged blocks. */
  datatype Geometry = Geometry(start: nat, size: nat) {
    predicate InLog(b: nat) {
      start <= b < start + size
    }
  }

  ghost function IndexOf(s: seq<nat>, b: nat): (i: nat)
    requires b in s
    ensures i < |s| && s[i] == b
  {
    var i :| 0 <= i < |s| && s[i] == b; i
  }

  ghost predicate Distinct(s: seq<nat>) {
    forall i :: 0 <= i < |s| ==> IndexOf(s, s[i]) == i
  }

  lemma {:induction false} DistinctPush(s: seq<nat>, b: nat)
    requires Distinct(s) && b !in s
    ensures Distinct(s + [b])
  {
    var t := s + [b];
    forall i | 0 <= i < |t| ensures IndexOf(t, t[i]) == i {
      var j := IndexOf(t, t[i]);
      assert i < |s| ==> IndexOf(s, s[i]) == i;
      assert j < |s| ==> IndexOf(s, s[j]) == j;
    }
  }

  ghost predicate Mounts(g: Geometry, d: Disk) {
    g.InLog(g.start) && forall b :: g.InLog(b) ==> b in d
  }

  /** Block numbers that a transaction may hold: distinct home blocks, few enough for the log area. */
  ghost predicate Loggable(g: Geometry, d: Disk, blocks: seq<nat>) {
    && |blocks| <= LOGSIZE && |blocks| <= g.size - 1
    && Distinct(blocks)
    && forall i :: 0 <= i < |blocks| ==> blocks[i] in d && !g.InLog(blocks[i])
  }

  /** The block numbers that the header on disk announces. */
  ghost function Logged(g: Geometry, d: Disk): seq<nat>
    requires g.start in d
  {
    HeaderBlocks(d[g.start])
  }

  ghost predicate WellFormed(g: Geometry, d: Disk) {
    && Mounts(g, d)
    && WordAt(d[g.start], 0) <= LOGSIZE
    && Loggable(g, d, Logged(g, d))
  }

  // Sequences of flushes.

  function Put(d: Disk, b: nat, v: Block): Disk {
    if b in d then d[b := v] else d
  }

  /** The disk after the first `k` of the flushes `fs`. */
  function After(d: Disk, fs: seq<Flush>, k: nat): (e: Disk)
    requires k <= |fs|
    ensures e.Keys == d.Keys
  {
    if k == 0 then d else Put(After(d, fs, k - 1), fs[k - 1].block, fs[k - 1].value)
  }

  function All(d: Disk, fs: seq<Flush>): (e: Disk)
    ensures e.Keys == d.Keys
  {
    After(d, fs, |fs|)
  }

  lemma {:induction false} AfterConcat(d: Disk, a: seq<Flush>, b: seq<Flush>, k: nat)
    requires k <= |a| + |b|
    ensures After(d, a + b, k) == if k <= |a| then After(d, a, k) else After(All(d, a), b, k - |a|)
  {
    if k > 0 {
      AfterConcat(d, a, b, k - 1);
    }
  }

  lemma {:induction false} AfterMiss(d: Disk, fs: seq<Flush>, k: nat, b: nat)
    requires k <= |fs| && b in d && forall i :: 0 <= i < k ==> fs[i].block != b
    ensures After(d, fs, k)[b] == d[b]
  {
    if k > 0 {
      AfterMiss(d, fs, k - 1, b);
    }
  }

  lemma {:induction false} AfterHit(d: Disk, fs: seq<Flush>, k: nat, i: nat)
    requires i < k <= |fs| && fs[i].block in d
    requires forall j :: i < j < k ==> fs[j].block != fs[i].block
    ensures After(d, fs, k)[fs[i].block] == fs[i].value
  {
    if i < k - 1 {
      AfterHit(d, fs, k - 1, i);
    }
  }

  /** The disk writes of `write_log`. */
  ghost predicate IsLogFlushes(g: Geometry, values: seq<Block>, fs: seq<Flush>) {
    |fs| == |values| && forall i :: 0 <= i < |fs| ==> fs[i] == Flush(g.start + 1 + i, values[i])
  }

  lemma {:induction false} LogFlushesExist(g: Geometry, values: seq<Block>)
    ensures exists fs :: IsLogFlushes(g, values, fs)
  {
    if values == [] {
      assert IsLogFlushes(g, values, []);
    } else {
      var n := |values| - 1;
      LogFlushesExist(g, values[..n]);
      var fs :| IsLogFlushes(g, values[..n], fs);
      assert IsLogFlushes(g, values, fs + [Flush(g.start + 1 + n, values[n])]);
    }
  }

  ghost function LogFlushes(g: Geometry, values: seq<Block>): (fs: seq<Flush>)
    ensures IsLogFlushes(g, values, fs)
  {
    LogFlushesExist(g, values);
    var fs :| IsLogFlushes(g, values, fs); fs
  }

  /** The disk writes of `install_blocks`. */
  ghost predicate IsInstallFlushes(blocks: seq<nat>, values: seq<Block>, fs: seq<Flush>) {
    |fs| == |blocks| == |values| && forall i :: 0 <= i < |fs| ==> fs[i] == Flush(blocks[i], values[i])
  }

  lemma {:induction false} InstallFlushesExist(blocks: seq<nat>, values: seq<Block>)
    requires |blocks| == |values|
    ensures exists fs :: IsInstallFlushes(blocks, values, fs)
    decreases |blocks|
  {
    if blocks == [] {
      assert IsInstallFlushes(blocks, values, []);
    } else {
      var n := |blocks| - 1;
      InstallFlushesExist(blocks[..n], values[..n]);
      var fs :| IsInstallFlushes(blocks[..n], values[..n], fs);
      assert IsInstallFlushes(blocks, values, fs + [Flush(blocks[n], values[n])]);
    }
  }

  ghost function InstallFlushes(blocks: seq<nat>, values: seq<Block>): (fs: seq<Flush>)
    requires |blocks| == |values|
    ensures IsInstallFlushes(blocks, values, fs)
  {
    InstallFlushesExist(blocks, values);
    var fs :| IsInstallFlushes(blocks, values, fs); fs
  }

  lemma {:induction false} InstalledAt(d: Disk, blocks: seq<nat>, values: seq<Block>, last: Flush, b: nat)
    requires |blocks| == |values| && Distinct(blocks) && b in d && last.block != b
    ensures All(d, InstallFlushes(blocks, values) + [last])[b]
            == if b in blocks then values[IndexOf(blocks, b)] else d[b]
  {
    var fs := InstallFlushes(blocks, values) + [last];
    if b in blocks {
      AfterHit(d, fs, |fs|, IndexOf(blocks, b));
    } else {
      AfterMiss(d, fs, |fs|, b);
    }
  }

  lemma {:induction false} LoggedAt(g: Geometry, d: Disk, values: seq<Block>, announce: Block, b: nat)
    requires b in d
    ensures All(d, LogFlushes(g, values) + [Flush(g.start, announce)])[b]
            == if b == g.start then announce
               else if g.start + 1 <= b < g.start + 1 + |values| then values[b - g.start - 1] else d[b]
  {
    var fs := LogFlushes(g, values) + [Flush(g.start, announce)];
    if g.start <= b < g.start + 1 + |values| {
      AfterHit(d, fs, |fs|, if b == g.start then |values| else b - g.start - 1);
    } else {
      AfterMiss(d, fs, |fs|, b);
    }
  }

  // What a disk is worth to the file system.

  /** The home blocks of `d` as they are. */
  function Home(g: Geometry, d: Disk): Disk {
    map b | b in d && !g.InLog(b) :: d[b]
  }

  /** The home blocks as the file system must see them: a block the header announces is worth its logged copy. */
  ghost function View(g: Geometry, d: Disk): Disk
    requires WellFormed(g, d)
  {
    map b | b in d && !g.InLog(b) ::
      if b in Logged(g, d) then d[g.start + 1 + IndexOf(Logged(g, d), b)] else d[b]
  }

  /** The home blocks after a transaction: each of its blocks has its value, all others are as before. */
  ghost function Committed(g: Geometry, d: Disk, blocks: seq<nat>, values: seq<Block>): Disk
    requires |blocks| == |values|
  {
    map b | b in d && !g.InLog(b) :: if b in blocks then values[IndexOf(blocks, b)] else d[b]
  }

  lemma {:induction false} HomeIsView(g: Geometry, d: Disk)
    requires WellFormed(g, d) && Logged(g, d) == []
    ensures View(g, d) == Home(g, d)
  {
  }

  /** Disks that agree on the log area and on the home blocks it does not announce have the same view. */
  lemma {:induction false} ViewAgree(g: Geometry, d: Disk, e: Disk)
    requires WellFormed(g, d) && e.Keys == d.Keys
    requires forall b :: b in d && (g.InLog(b) || b !in Logged(g, d)) ==> e[b] == d[b]
    ensures WellFormed(g, e) && View(g, e) == View(g, d)
  {
    assert e[g.start] == d[g.start];
    var s := Logged(g, d);
    forall b | b in d && !g.InLog(b) ensures View(g, e)[b] == View(g, d)[b] {
      if b in s {
        assert g.InLog(g.start + 1 + IndexOf(s, b));
      }
    }
  }

  // Recovery.

  /** The logged copies that stand behind the header. */
  ghost predicate AreCopies(g: Geometry, d: Disk, vs: seq<Block>)
    requires WellFormed(g, d)
  {
    |vs| == |Logged(g, d)| && forall i :: 0 <= i < |vs| ==> vs[i] == d[g.start + 1 + i]
  }

  lemma {:induction false} CopiesExist(g: Geometry, d: Disk, n: nat) returns (vs: seq<Block>)
    requires WellFormed(g, d) && n <= |Logged(g, d)|
    ensures |vs| == n && forall i :: 0 <= i < n ==> vs[i] == d[g.start + 1 + i]
  {
    if n == 0 {
      vs := [];
    } else {
      vs := CopiesExist(g, d, n - 1);
      assert g.InLog(g.start + n);
      vs := vs + [d[g.start + n]];
    }
  }

  lemma {:induction false} SomeCopies(g: Geometry, d: Disk)
    requires WellFormed(g, d)
    ensures exists vs :: AreCopies(g, d, vs)
  {
    var vs := CopiesExist(g, d, |Logged(g, d)|);
    assert AreCopies(g, d, vs);
  }

  ghost function Copies(g: Geometry, d: Disk): (vs: seq<Block>)
    requires WellFormed(g, d)
    ensures AreCopies(g, d, vs)
  {
    SomeCopies(g, d);
    var vs :| AreCopies(g, d, vs); vs
  }

  /** The disk writes of `initialize`, which installs what the header announces and clears the header. */
  ghost function RecoveryFlushes(g: Geometry, d: Disk, clear: Block): (fs: seq<Flush>)
    requires WellFormed(g, d)
    ensures |fs| == |Logged(g, d)| + 1
  {
    InstallFlushes(Logged(g, d), Copies(g, d)) + [Flush(g.start, clear)]
  }

  lemma {:induction false} RecoveryInstalling(g: Geometry, d: Disk, clear: Block, k: nat)
    requires WellFormed(g, d) && k <= |Logged(g, d)|
    ensures var e := After(d, RecoveryFlushes(g, d, clear), k);
            WellFormed(g, e) && View(g, e) == View(g, d)
  {
    var s := Logged(g, d);
    var fs := RecoveryFlushes(g, d, clear);
    assert forall i :: 0 <= i < k ==> fs[i].block == s[i];
    forall b | b in d && (g.InLog(b) || b !in s) ensures After(d, fs, k)[b] == d[b] {
      AfterMiss(d, fs, k, b);
    }
    ViewAgree(g, d, After(d, fs, k));
  }

  lemma {:induction false} RecoveryDone(g: Geometry, d: Disk, clear: Block)
    requires WellFormed(g, d) && Cleared(clear)
    ensures var e := All(d, RecoveryFlushes(g, d, clear));
            WellFormed(g, e) && Logged(g, e) == [] && Home(g, e) == View(g, d)
  {
    var s := Logged(g, d);
    var fs := RecoveryFlushes(g, d, clear);
    AfterHit(d, fs, |fs|, |s|);
    NothingLogged(g, d, All(d, fs));
    RecoveredHome(g, d, clear);
  }

  lemma {:induction false} RecoveredHome(g: Geometry, d: Disk, clear: Block)
    requires WellFormed(g, d)
    ensures Home(g, All(d, RecoveryFlushes(g, d, clear))) == View(g, d)
  {
    var e := All(d, RecoveryFlushes(g, d, clear));
    forall b | b in d && !g.InLog(b) ensures e[b] == View(g, d)[b] {
      InstalledAt(d, Logged(g, d), Copies(g, d), Flush(g.start, clear), b);
    }
  }

  lemma {:induction false} NothingLogged(g: Geometry, d: Disk, e: Disk)
    requires Mounts(g, d) && e.Keys == d.Keys && Cleared(e[g.start])
    ensures WellFormed(g, e) && Logged(g, e) == []
  {
  }

  /** A recovery that stops after any of its flushes leaves the same view, so it can be run again. */
  lemma {:induction false} RecoveryPrefix(g: Geometry, d: Disk, clear: Block, k: nat)
    requires WellFormed(g, d) && Cleared(clear) && k <= |RecoveryFlushes(g, d, clear)|
    ensures var e := After(d, RecoveryFlushes(g, d, clear), k);
            WellFormed(g, e) && View(g, e) == View(g, d)
  {
    if k <= |Logged(g, d)| {
      RecoveryInstalling(g, d, clear, k);
    } else {
      RecoveryDone(g, d, clear);
      HomeIsView(g, All(d, RecoveryFlushes(g, d, clear)));
    }
  }

  /** A crash inside a recovery: how many flushes had reached the disk, and the cleared header it would write. */
  datatype Crash = Crash(after: nat, clear: Block)

  /** The disk after a series of recoveries, each cut short by the next crash. */
  ghost function CrashedRecoveries(g: Geometry, d: Disk, crashes: seq<Crash>): Disk
    requires WellFormed(g, d)
    requires forall i :: 0 <= i < |crashes| ==> Cleared(crashes[i].clear)
    decreases |crashes|
  {
    if crashes == [] then d else
      var fs := RecoveryFlushes(g, d, crashes[0].clear);
      var k := if crashes[0].after <= |fs| then crashes[0].after else |fs|;
      RecoveryPrefix(g, d, crashes[0].clear, k);
      CrashedRecoveries(g, After(d, fs, k), crashes[1..])
  }

  /** Any number of crashes during recovery change nothing: the recovery that completes installs the same view. */
  lemma {:induction false} RepeatedRecovery(g: Geometry, d: Disk, crashes: seq<Crash>, clear: Block)
    requires WellFormed(g, d) && Cleared(clear)
    requires forall i :: 0 <= i < |crashes| ==> Cleared(crashes[i].clear)
    ensures var e := CrashedRecoveries(g, d, crashes);
            && WellFormed(g, e)
            && Home(g, All(e, RecoveryFlushes(g, e, clear))) == View(g, d)
            && Logged(g, All(e, RecoveryFlushes(g, e, clear))) == []
    decreases |crashes|
  {
    if crashes == [] {
      RecoveryDone(g, d, clear);
    } else {
      var fs := RecoveryFlushes(g, d, crashes[0].clear);
      var k := if crashes[0].after <= |fs| then crashes[0].after else |fs|;
      RecoveryPrefix(g, d, crashes[0].clear, k);
      RepeatedRecovery(g, After(d, fs, k), crashes[1..], clear);
    }
  }

  // Commit.

  /** The disk writes of `commit`; `announce` and `clear` are the two header blocks it writes. */
  ghost function CommitFlushes(g: Geometry, blocks: seq<nat>, values: seq<Block>, announce: Block,
      clear: Block): (fs: seq<Flush>)
    requires |blocks| == |values|
    ensures |fs| == 2 * |blocks| + 2
  {
    LogFlushes(g, values) + [Flush(g.start, announce)] + (InstallFlushes(blocks, values) + [Flush(g.start, clear)])
  }

  /** While `write_log` runs nothing is announced, so a crash loses the whole transaction. */
  lemma {:induction false} LoggingPrefix(g: Geometry, d: Disk, values: seq<Block>, k: nat)
    requires WellFormed(g, d) && Logged(g, d) == [] && |values| <= g.size - 1 && k <= |values|
    ensures var e := After(d, LogFlushes(g, values), k);
            WellFormed(g, e) && View(g, e) == Home(g, d)
  {
    var fs := LogFlushes(g, values);
    var e := After(d, fs, k);
    forall b | b in d && (b == g.start || !g.InLog(b)) ensures e[b] == d[b] {
      AfterMiss(d, fs, k, b);
    }
    assert Logged(g, e) == [];
    HomeIsView(g, e);
  }

  /** The first header write switches the view to the whole transaction. */
  lemma {:induction false} Announced(g: Geometry, d: Disk, blocks: seq<nat>, values: seq<Block>, announce: Block)
    requires WellFormed(g, d) && Logged(g, d) == []
    requires |blocks| == |values| && Loggable(g, d, blocks) && Announces(announce, blocks)
    ensures var e := All(d, LogFlushes(g, values) + [Flush(g.start, announce)]);
            && WellFormed(g, e) && Logged(g, e) == blocks && Copies(g, e) == values
            && View(g, e) == Committed(g, d, blocks, values)
  {
    var e := All(d, LogFlushes(g, values) + [Flush(g.start, announce)]);
    forall b | b in d
      ensures e[b] == if b == g.start then announce
                      else if g.start + 1 <= b < g.start + 1 + |values| then values[b - g.start - 1] else d[b]
    {
      LoggedAt(g, d, values, announce, b);
    }
    ViewIs(g, d, e, blocks, values);
  }

  lemma {:induction false} ViewIs(g: Geometry, d: Disk, e: Disk, blocks: seq<nat>, values: seq<Block>)
    requires WellFormed(g, e) && Logged(g, e) == blocks && |blocks| == |values| && e.Keys == d.Keys
    requires forall i :: 0 <= i < |values| ==> e[g.start + 1 + i] == values[i]
    requires forall b :: b in d && !g.InLog(b) ==> e[b] == d[b]
    ensures Copies(g, e) == values && View(g, e) == Committed(g, d, blocks, values)
  {
  }

  /** Once announced, the rest of a commit is exactly a recovery. */
  lemma {:induction false} CommitIsLogThenRecovery(g: Geometry, d: Disk, blocks: seq<nat>, values: seq<Block>,
      announce: Block, clear: Block)
    requires WellFormed(g, d) && Logged(g, d) == []
    requires |blocks| == |values| && Loggable(g, d, blocks) && Announces(announce, blocks)
    ensures var lf := LogFlushes(g, values) + [Flush(g.start, announce)];
            && WellFormed(g, All(d, lf))
            && CommitFlushes(g, blocks, values, announce, clear) == lf + RecoveryFlushes(g, All(d, lf), clear)
  {
    Announced(g, d, blocks, values, announce);
  }

  lemma {:induction false} CommitLogging(g: Geometry, d: Disk, blocks: seq<nat>, values: seq<Block>, announce: Block,
      clear: Block, k: nat)
    requires WellFormed(g, d) && Logged(g, d) == []
    requires |blocks| == |values| && Loggable(g, d, blocks) && Announces(announce, blocks) && Cleared(clear)
    requires k <= |blocks|
    ensures var e := After(d, CommitFlushes(g, blocks, values, announce, clear), k);
            WellFormed(g, e) && View(g, e) == Home(g, d)
  {
    var lf := LogFlushes(g, values);
    var rest := InstallFlushes(blocks, values) + [Flush(g.start, clear)];
    AfterConcat(d, lf + [Flush(g.start, announce)], rest, k);
    AfterConcat(d, lf, [Flush(g.start, announce)], k);
    LoggingPrefix(g, d, values, k);
  }

  lemma {:induction false} CommitInstalling(g: Geometry, d: Disk, blocks: seq<nat>, values: seq<Block>, announce: Block,
      clear: Block, k: nat)
    requires WellFormed(g, d) && Logged(g, d) == []
    requires |blocks| == |values| && Loggable(g, d, blocks) && Announces(announce, blocks) && Cleared(clear)
    requires |blocks| < k <= 2 * |blocks| + 2
    ensures var e := After(d, CommitFlushes(g, blocks, values, announce, clear), k);
            WellFormed(g, e) && View(g, e) == Committed(g, d, blocks, values)
  {
    var lf := LogFlushes(g, values) + [Flush(g.start, announce)];
    CommitIsLogThenRecovery(g, d, blocks, values, announce, clear);
    Announced(g, d, blocks, values, announce);
    AfterConcat(d, lf, RecoveryFlushes(g, All(d, lf), clear), k);
    RecoveryPrefix(g, All(d, lf), clear, k - |lf|);
  }

  /** A commit that runs to its end leaves the committed home blocks and an empty log. */
  lemma {:induction false} CommitDone(g: Geometry, d: Disk, blocks: seq<nat>, values: seq<Block>, announce: Block,
      clear: Block)
    requires WellFormed(g, d) && Logged(g, d) == []
    requires |blocks| == |values| && Loggable(g, d, blocks) && Announces(announce, blocks) && Cleared(clear)
    ensures var e := All(d, CommitFlushes(g, blocks, values, announce, clear));
            && WellFormed(g, e) && Logged(g, e) == [] && Home(g, e) == Committed(g, d, blocks, values)
  {
    var fs := CommitFlushes(g, blocks, values, announce, clear);
    CommitInstalling(g, d, blocks, values, announce, clear, |fs|);
    AfterHit(d, fs, |fs|, |fs| - 1);
    NothingLogged(g, d, All(d, fs));
    HomeIsView(g, All(d, fs));
  }

  /** Crash atomicity: whatever flush of a commit is the last to reach the disk, and however many recoveries are cut
      short afterwards, the recovery that completes leaves the home blocks as before the commit or as after it; the
      switch is the first header write. */
  lemma {:induction false} CrashAtomicity(g: Geometry, d: Disk, blocks: seq<nat>, values: seq<Block>, announce: Block,
      clear: Block, k: nat, crashes: seq<Crash>, clear': Block)
    requires WellFormed(g, d) && Logged(g, d) == []
    requires |blocks| == |values| && Loggable(g, d, blocks)
    requires Announces(announce, blocks) && Cleared(clear) && Cleared(clear')
    requires k <= 2 * |blocks| + 2
    requires forall i :: 0 <= i < |crashes| ==> Cleared(crashes[i].clear)
    ensures var e := After(d, CommitFlushes(g, blocks, values, announce, clear), k);
            && WellFormed(g, e)
            && var e' := CrashedRecoveries(g, e, crashes);
            && WellFormed(g, e')
            && Logged(g, All(e', RecoveryFlushes(g, e', clear'))) == []
            && Home(g, All(e', RecoveryFlushes(g, e', clear')))
               == if k <= |blocks| then Home(g, d) else Committed(g, d, blocks, values)
  {
    if k <= |blocks| {
      CommitLogging(g, d, blocks, values, announce, clear, k);
    } else {
      CommitInstalling(g, d, blocks, values, announce, clear, k);
    }
    RepeatedRecovery(g, After(d, CommitFlushes(g, blocks, values, announce, clear), k), crashes, clear');
  }
}
