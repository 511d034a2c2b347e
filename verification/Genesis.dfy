/** The genesis block: Merkle root, block hash and lifecycle in in-memory mode
(server/domain/genesis/service.py). */
module Genesis {
  import opened Numbers
  import opened Sorting
  import opened Text

  /** One player of the launch, with the balance in units of 0.000001. */
  datatype Snapshot = Snapshot(playerId: string, balance: int, tier: int, joinedAt: int, migrated: bool)

  /** The same before normalisation. */
  datatype PlayerInput = PlayerInput(playerId: string, balance: Rational, tier: int, joinedAt: int, migrated: bool)

  /** SHA-256 digests, by what was hashed. Different inputs give different digests. */
  datatype Hash =
    | EmptyGenesis
    | LeafHash(snapshot: Snapshot)
    | PairHash(left: Hash, right: Hash)
    | ChainIdHash(launchSecond: int, environment: string, gameVersion: string)
    | BlockHash(chainId: Hash, createdAt: int, merkleRoot: Hash, players: seq<Snapshot>)

  /** A signature is valid for one key and one digest only. */
  datatype Signature = Signed(key: int, digest: Hash) | Unusable(text: string)

  // ---------------------------------------------------------------- the Merkle tree

  /** A level of odd length repeats its last digest. */
  function Padded(level: seq<Hash>): seq<Hash> {
    if |level| % 2 == 1 then level + [level[|level| - 1]] else level
  }

  function NextLevel(level: seq<Hash>): seq<Hash> {
    var padded := Padded(level);
    seq(|padded| / 2, i requires 0 <= i < |padded| / 2 => PairHash(padded[2 * i], padded[2 * i + 1]))
  }

  function Root(level: seq<Hash>): Hash
    requires level != []
    decreases |level|
  {
    if |level| == 1 then level[0] else Root(NextLevel(level))
  }

  function Leaves(snapshots: seq<Snapshot>): seq<Hash> {
    seq(|snapshots|, i requires 0 <= i < |snapshots| => LeafHash(snapshots[i]))
  }

  function MerkleRoot(snapshots: seq<Snapshot>): Hash {
    if snapshots == [] then EmptyGenesis else Root(Leaves(snapshots))
  }

  /** _compute_merkle_root. */
  method ComputeMerkleRoot(snapshots: seq<Snapshot>) returns (root: Hash)
    ensures root == MerkleRoot(snapshots)
  {
    if snapshots == [] {
      return EmptyGenesis;
    }
    var leafHashes := Leaves(snapshots);
    while 1 < |leafHashes|
      invariant leafHashes != [] && Root(leafHashes) == Root(Leaves(snapshots))
      decreases |leafHashes|
    {
      if |leafHashes| % 2 == 1 {
        leafHashes := PairUp(leafHashes, leafHashes + [leafHashes[|leafHashes| - 1]]);
      } else {
        leafHashes := PairUp(leafHashes, leafHashes);
      }
    }
    root := leafHashes[0];
  }

  /** The inner loop: hashes the padded level two by two. */
  method PairUp(ghost level: seq<Hash>, padded: seq<Hash>) returns (nextLevel: seq<Hash>)
    requires padded == Padded(level)
    ensures nextLevel == NextLevel(level)
    ensures |nextLevel| == (|level| + 1) / 2
  {
    nextLevel := [];
    var index := 0;
    while index < |padded|
      invariant 0 <= index <= |padded| && index == 2 * |nextLevel|
      invariant forall i :: 0 <= i < |nextLevel| ==> nextLevel[i] == PairHash(padded[2 * i], padded[2 * i + 1])
      decreases |padded| - index
    {
      nextLevel := nextLevel + [PairHash(padded[index], padded[index + 1])];
      index := index + 2;
    }
  }

  function Height(h: Hash): nat {
    if h.PairHash? then Height(h.left) + 1 else 0
  }

  function FirstLeaf(h: Hash): Hash {
    if h.PairHash? then FirstLeaf(h.left) else h
  }

  /** A level k steps above the leaves, in which no two digests start at the same leaf. */
  ghost predicate ProperLevel(level: seq<Hash>, k: nat) {
    && (forall i :: 0 <= i < |level| ==> Height(level[i]) == k)
    && (forall i, j :: 0 <= i < j < |level| ==> FirstLeaf(level[i]) != FirstLeaf(level[j]))
  }

  lemma NextLevelProper(level: seq<Hash>, k: nat)
    requires ProperLevel(level, k) && 2 <= |level|
    ensures ProperLevel(NextLevel(level), k + 1)
    ensures |NextLevel(level)| == (|level| + 1) / 2
  {
    var next := NextLevel(level);
    forall i | 0 <= i < |next|
      ensures Height(next[i]) == k + 1 && FirstLeaf(next[i]) == FirstLeaf(level[2 * i])
    {
      assert Padded(level)[2 * i] == level[2 * i];
    }
  }

  lemma {:induction false} RootHeight(level: seq<Hash>, k: nat)
    requires ProperLevel(level, k) && level != []
    ensures |level| == 1 ==> Height(Root(level)) == k
    ensures 1 < |level| ==> k < Height(Root(level))
    decreases |level|
  {
    if 1 < |level| {
      NextLevelProper(level, k);
      RootHeight(NextLevel(level), k + 1);
    }
  }

  lemma NoRepeatedEnd(level: seq<Hash>, k: nat)
    requires ProperLevel(level, k) && 2 <= |level|
    ensures level[|level| - 1] != level[|level| - 2]
  {
    assert FirstLeaf(level[|level| - 2]) != FirstLeaf(level[|level| - 1]);
  }

  /** Equal next levels come from equal levels: a repeated last digest cannot be mistaken for a leaf. */
  lemma LevelFromNext(a: seq<Hash>, b: seq<Hash>, k: nat)
    requires ProperLevel(a, k) && ProperLevel(b, k) && 2 <= |a| && 2 <= |b|
    requires NextLevel(a) == NextLevel(b)
    ensures a == b
  {
    var pa, pb := Padded(a), Padded(b);
    assert |NextLevel(a)| == |pa| / 2 && |NextLevel(b)| == |pb| / 2;
    assert |pa| == |pb|;
    forall i | 0 <= i < |pa|
      ensures pa[i] == pb[i]
    {
      assert NextLevel(a)[i / 2] == PairHash(pa[2 * (i / 2)], pa[2 * (i / 2) + 1]);
      assert NextLevel(b)[i / 2] == PairHash(pb[2 * (i / 2)], pb[2 * (i / 2) + 1]);
    }
    assert pa == pb;
    NoRepeatedEnd(a, k);
    NoRepeatedEnd(b, k);
    assert |a| == |b|;
    assert a == pa[..|a|] && b == pb[..|b|];
  }

  lemma {:induction false} RootBinding(a: seq<Hash>, b: seq<Hash>, k: nat)
    requires ProperLevel(a, k) && ProperLevel(b, k) && a != [] && b != []
    requires Root(a) == Root(b)
    ensures a == b
    decreases |a|
  {
    RootHeight(a, k);
    RootHeight(b, k);
    if 1 < |a| {
      NextLevelProper(a, k);
      NextLevelProper(b, k);
      RootBinding(NextLevel(a), NextLevel(b), k + 1);
      LevelFromNext(a, b, k);
    }
  }

  ghost predicate DistinctPlayers(snapshots: seq<Snapshot>) {
    forall i, j :: 0 <= i < j < |snapshots| ==> snapshots[i].playerId != snapshots[j].playerId
  }

  /** The root binds the whole list: lists of any lengths with pairwise distinct players and the same root are
  equal entry for entry. */
  lemma MerkleRootBinding(a: seq<Snapshot>, b: seq<Snapshot>)
    requires DistinctPlayers(a) && DistinctPlayers(b)
    requires MerkleRoot(a) == MerkleRoot(b)
    ensures a == b
  {
    if a != [] && b != [] {
      LeavesProper(a);
      LeavesProper(b);
      RootBinding(Leaves(a), Leaves(b), 0);
      forall i | 0 <= i < |a|
        ensures a[i] == b[i]
      {
        assert Leaves(a)[i] == Leaves(b)[i];
      }
    } else if a != [] {
      RootIsNotEmpty(a);
    } else if b != [] {
      RootIsNotEmpty(b);
    }
  }

  lemma LeavesProper(snapshots: seq<Snapshot>)
    requires DistinctPlayers(snapshots)
    ensures ProperLevel(Leaves(snapshots), 0)
  {
  }

  lemma {:induction false} RootIsTree(level: seq<Hash>)
    requires level != [] && forall h :: h in level ==> h.LeafHash? || h.PairHash?
    ensures Root(level).LeafHash? || Root(level).PairHash?
    decreases |level|
  {
    if 1 < |level| {
      RootIsTree(NextLevel(level));
    }
  }

  lemma RootIsNotEmpty(snapshots: seq<Snapshot>)
    requires snapshots != []
    ensures MerkleRoot(snapshots) != EmptyGenesis
  {
    RootIsTree(Leaves(snapshots));
  }

  /** Without distinct players the padding is visible: repeating the last of three players keeps the root. */
  lemma RepeatedPlayerKeepsRoot(a: Snapshot, b: Snapshot, c: Snapshot)
    ensures MerkleRoot([a, b, c]) == MerkleRoot([a, b, c, c])
  {
    var three, four := Leaves([a, b, c]), Leaves([a, b, c, c]);
    assert Padded(three) == four == Padded(four);
    assert NextLevel(three) == NextLevel(four);
  }

  // ---------------------------------------------------------------- the genesis record

  datatype Record = Record(
    genesisId: string, blockHash: Hash, merkleRoot: Hash, chainId: Hash, createdAt: int, announcedAt: Option<int>,
    createdBy: string, signature: Signature, publicMessage: string, archivedAt: Option<int>, rollbackReason: string)

  datatype Error =
    | GenesisAlreadyExists | UnknownGenesis | GenesisArchived | AlreadyAnnounced | ImmutableAfterAnnouncement

  datatype Outcome = Done | Failed(error: Error)

  /** Environment of the service: signing key and what the chain id is derived from. */
  datatype Setup = Setup(key: int, environment: string, gameVersion: string)

  datatype State = State(record: Option<Record>, snapshots: seq<Snapshot>)

  function BuildChainId(setup: Setup, launch: int): Hash {
    ChainIdHash(launch / SECOND, Lower(Strip(setup.environment)), Strip(setup.gameVersion))
  }

  function ComputeBlockHash(chainId: Hash, createdAt: int, merkleRoot: Hash, snapshots: seq<Snapshot>): Hash {
    BlockHash(chainId, createdAt, merkleRoot, snapshots)
  }

  function Normalize(input: PlayerInput): Snapshot {
    Snapshot(input.playerId, RoundHalfEven(input.balance.num * MICRO, input.balance.den), Max(1, input.tier),
             input.joinedAt, input.migrated)
  }

  predicate PlayerLe(a: Snapshot, b: Snapshot) {
    TextLe(a.playerId, b.playerId)
  }

  /** _normalize_player_snapshots: rounded, clamped and sorted by player. */
  function NormalizeAll(inputs: seq<PlayerInput>): seq<Snapshot> {
    SortBy(PlayerLe, seq(|inputs|, i requires 0 <= i < |inputs| => Normalize(inputs[i])))
  }

  function NewRecord(setup: Setup, id: string, createdAt: int, admin: string, snapshots: seq<Snapshot>): Record {
    var chainId := BuildChainId(setup, createdAt);
    var root := MerkleRoot(snapshots);
    var blockHash := ComputeBlockHash(chainId, createdAt, root, snapshots);
    Record(id, blockHash, root, chainId, createdAt, None, admin, Signed(setup.key, blockHash), "", None, "")
  }

  /** get_current_genesis_block, without archived records. */
  function Current(s: State): Option<Record> {
    if s.record.Some? && s.record.value.archivedAt.None? then s.record else None
  }

  /** list_player_snapshots. */
  function SnapshotsOf(s: State, genesisId: string): seq<Snapshot> {
    if s.record.Some? && s.record.value.genesisId == genesisId then s.snapshots else []
  }

  /** verify_genesis_signature for one record and the snapshots stored for it. */
  predicate Verified(setup: Setup, record: Record, snapshots: seq<Snapshot>) {
    && record.archivedAt.None?
    && MerkleRoot(snapshots) == record.merkleRoot
    && ComputeBlockHash(record.chainId, record.createdAt, record.merkleRoot, snapshots) == record.blockHash
    && record.signature == Signed(setup.key, record.blockHash)
  }

  /** verify_genesis_signature for the given record, or for the current one. */
  predicate VerifiedIn(setup: Setup, s: State, block: Option<Record>) {
    var record := if block.Some? then block else Current(s);
    record.Some? && Verified(setup, record.value, SnapshotsOf(s, record.value.genesisId))
  }

  predicate CurrentVerified(setup: Setup, s: State) {
    VerifiedIn(setup, s, None)
  }

  datatype Action =
    | Create(id: string, createdAt: int, admin: string, players: seq<PlayerInput>)
    | Announce(id: string, message: string, now: int)
    | Rollback(id: string, reason: string, now: int)

  function OutcomeOf(s: State, a: Action): Outcome {
    match a
    case Create(_, _, _, _) => if Current(s).Some? then Failed(GenesisAlreadyExists) else Done
    case Announce(id, _, _) =>
      if s.record.None? || s.record.value.genesisId != id then Failed(UnknownGenesis)
      else if s.record.value.archivedAt.Some? then Failed(GenesisArchived)
      else if s.record.value.announcedAt.Some? then Failed(AlreadyAnnounced)
      else Done
    case Rollback(id, _, _) =>
      if s.record.None? || s.record.value.genesisId != id then Failed(UnknownGenesis)
      else if s.record.value.announcedAt.Some? then Failed(ImmutableAfterAnnouncement)
      else Done
  }

  function Apply(setup: Setup, s: State, a: Action): State {
    if OutcomeOf(s, a) != Done then s
    else
      match a
      case Create(id, createdAt, admin, players) =>
        var snapshots := NormalizeAll(players);
        State(Some(NewRecord(setup, id, createdAt, admin, snapshots)), snapshots)
      case Announce(_, message, now) =>
        s.(record := Some(s.record.value.(announcedAt := Some(now), publicMessage := Strip(message),
                                          archivedAt := None, rollbackReason := "")))
      case Rollback(_, reason, now) =>
        s.(record := Some(s.record.value.(announcedAt := None, archivedAt := Some(now),
                                          rollbackReason := Strip(reason))))
  }

  class GenesisService {
    const setup: Setup
    var record: Option<Record>
    var snapshots: seq<Snapshot>

    ghost function Model(): State
      reads this
    {
      State(record, snapshots)
    }

    constructor (setup: Setup)
      ensures Model() == State(None, []) && this.setup == setup
    {
      this.setup := setup;
      record := None;
      snapshots := [];
    }

    method CreateGenesisBlock(id: string, createdAt: int, admin: string, players: seq<PlayerInput>)
      returns (outcome: Outcome)
      modifies this
      ensures Model() == Apply(setup, old(Model()), Create(id, createdAt, admin, players))
      ensures outcome == OutcomeOf(old(Model()), Create(id, createdAt, admin, players))
      ensures outcome == Done ==> CurrentVerified(setup, Model())
    {
      if record.Some? && record.value.archivedAt.None? {
        return Failed(GenesisAlreadyExists);
      }
      var normalized := NormalizeAll(players);
      var chainId := BuildChainId(setup, createdAt);
      var merkleRoot := ComputeMerkleRoot(normalized);
      var blockHash := ComputeBlockHash(chainId, createdAt, merkleRoot, normalized);
      record := Some(Record(id, blockHash, merkleRoot, chainId, createdAt, None, admin, Signed(setup.key, blockHash),
                            "", None, ""));
      snapshots := normalized;
      return Done;
    }

    method AnnounceGenesis(id: string, message: string, now: int) returns (outcome: Outcome)
      modifies this`record
      ensures Model() == Apply(setup, old(Model()), Announce(id, message, now))
      ensures outcome == OutcomeOf(old(Model()), Announce(id, message, now))
      ensures outcome == Done && old(CurrentVerified(setup, Model())) ==> CurrentVerified(setup, Model())
    {
      if record.None? || record.value.genesisId != id {
        return Failed(UnknownGenesis);
      }
      var found := record.value;
      if found.archivedAt.Some? {
        return Failed(GenesisArchived);
      }
      if found.announcedAt.Some? {
        return Failed(AlreadyAnnounced);
      }
      record := Some(Record(found.genesisId, found.blockHash, found.merkleRoot, found.chainId, found.createdAt,
                            Some(now), found.createdBy, found.signature, Strip(message), None, ""));
      return Done;
    }

    method RollbackGenesis(id: string, reason: string, now: int) returns (outcome: Outcome)
      modifies this`record
      ensures Model() == Apply(setup, old(Model()), Rollback(id, reason, now))
      ensures outcome == OutcomeOf(old(Model()), Rollback(id, reason, now))
      ensures outcome == Done ==> !CurrentVerified(setup, Model())
    {
      if record.None? || record.value.genesisId != id {
        return Failed(UnknownGenesis);
      }
      var found := record.value;
      if found.announcedAt.Some? {
        return Failed(ImmutableAfterAnnouncement);
      }
      record := Some(Record(found.genesisId, found.blockHash, found.merkleRoot, found.chainId, found.createdAt,
                            None, found.createdBy, found.signature, found.publicMessage, Some(now), Strip(reason)));
      return Done;
    }

    method VerifyGenesisSignature(block: Option<Record>) returns (valid: bool)
      ensures valid == VerifiedIn(setup, Model(), block)
    {
      var found := if block.Some? then block else Current(State(record, snapshots));
      if found.None? || found.value.archivedAt.Some? {
        return false;
      }
      var r := found.value;
      var listed := SnapshotsOf(State(record, snapshots), r.genesisId);
      var expectedRoot := ComputeMerkleRoot(listed);
      if expectedRoot != r.merkleRoot {
        return false;
      }
      if ComputeBlockHash(r.chainId, r.createdAt, r.merkleRoot, listed) != r.blockHash {
        return false;
      }
      return r.signature == Signed(setup.key, r.blockHash);
    }
  }

  // ---------------------------------------------------------------- whole lifecycles

  ghost function Run(setup: Setup, s: State, actions: seq<Action>): State {
    if actions == [] then s else Apply(setup, Run(setup, s, actions[..|actions| - 1]), actions[|actions| - 1])
  }

  /** Whatever record is stored and not archived verifies against the stored snapshots. */
  ghost predicate Inv(setup: Setup, s: State) {
    Current(s).Some? ==> CurrentVerified(setup, s)
  }

  lemma ApplyKeepsInv(setup: Setup, s: State, a: Action)
    requires Inv(setup, s)
    ensures Inv(setup, Apply(setup, s, a))
  {
    hide MerkleRoot, NormalizeAll;
  }

  /** In every lifecycle the current genesis verifies. */
  lemma {:induction false} CurrentAlwaysVerifies(setup: Setup, actions: seq<Action>)
    ensures Inv(setup, Run(setup, State(None, []), actions))
  {
    if actions != [] {
      hide Apply;
      CurrentAlwaysVerifies(setup, actions[..|actions| - 1]);
      ApplyKeepsInv(setup, Run(setup, State(None, []), actions[..|actions| - 1]), actions[|actions| - 1]);
    }
  }

  /** Once announced, a genesis is final: no later action changes the record or its snapshots. */
  lemma {:induction false} AnnouncedIsFinal(setup: Setup, s: State, actions: seq<Action>)
    requires Current(s).Some? && s.record.value.announcedAt.Some?
    ensures Run(setup, s, actions) == s
  {
    if actions != [] {
      AnnouncedIsFinal(setup, s, actions[..|actions| - 1]);
    }
  }

  /** With the signature of a genuine genesis, a record and a list of snapshots verify exactly when hash, root,
  chain id, creation time and every snapshot are the genuine ones, and the record is not archived. */
  lemma TamperingIsDetected(setup: Setup, id: string, createdAt: int, admin: string, players: seq<PlayerInput>,
                            forged: Record, snapshots: seq<Snapshot>)
    requires forged.signature == NewRecord(setup, id, createdAt, admin, NormalizeAll(players)).signature
    ensures var genuine := NewRecord(setup, id, createdAt, admin, NormalizeAll(players));
      Verified(setup, forged, snapshots) <==>
        (forged.archivedAt.None? && snapshots == NormalizeAll(players) && forged.chainId == genuine.chainId
         && forged.createdAt == createdAt && forged.merkleRoot == genuine.merkleRoot
         && forged.blockHash == genuine.blockHash)
  {
    hide MerkleRoot, NormalizeAll;
  }

  /** A signature of any other key never verifies. */
  lemma OtherKeysFail(setup: Setup, other: Setup, id: string, createdAt: int, admin: string, players: seq<PlayerInput>)
    requires setup.key != other.key
    ensures !Verified(setup, NewRecord(other, id, createdAt, admin, NormalizeAll(players)), NormalizeAll(players))
  {
  }
}
