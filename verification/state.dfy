/** The node's role state: how many servers the network acknowledges, this
    node's server state, which network it is on, and the current database,
    directory block, admin block and height. */
module NodeState {
  import opened Encoding

  // Network numbers, as recorded in directory blocks.
  const NetworkMain: int := 0
  const NetworkTest: int := 1
  const NetworkLocal: int := 2
  const NetworkCustom: int := 3

  /** Capacity of each message queue Init creates. */
  const QueueCapacity: nat := 10000

  /** The database, directory block and admin block are objects of other
      packages; the state only stores and returns them. */
  type Database(==)
  type DirectoryBlock(==)
  type AdminBlock(==)

  /** The capacity of each of the six message queues (0: not yet made). */
  datatype QueueCapacities = QueueCapacities(
    networkIn: nat, networkInvalid: nat, networkOut: nat,
    inMsg: nat, leaderIn: nat, followerIn: nat)

  /** The network a configured name selects; None for a name Init refuses. */
  function ParseNetwork(name: string): (r: Option<int>)
    ensures r.Some? <==> name in {"MAIN", "TEST", "LOCAL", "CUSTOM"}
    ensures r.Some? ==> NetworkMain <= r.value <= NetworkCustom
  {
    if name == "MAIN" then Some(NetworkMain)
    else if name == "TEST" then Some(NetworkTest)
    else if name == "LOCAL" then Some(NetworkLocal)
    else if name == "CUSTOM" then Some(NetworkCustom)
    else None
  }

  /** The configuration name of each network number. */
  function NetworkName(n: int): string
    requires NetworkMain <= n <= NetworkCustom
  {
    ["MAIN", "TEST", "LOCAL", "CUSTOM"][n]
  }

  /** Parsing and naming are inverse: each of the four names selects its
      own number, and no other name selects anything. */
  lemma ParseNetworkInverse(name: string, n: int)
    requires NetworkMain <= n <= NetworkCustom
    ensures ParseNetwork(NetworkName(n)) == Some(n)
    ensures ParseNetwork(name) == Some(n) <==> name == NetworkName(n)
  {
  }

  class State {
    var NetworkNumber: int
    var TotalServers: int
    var ServerState: int
    var Queues: QueueCapacities
    var DB: Option<Database>
    var CurrentDirectoryBlock: Option<DirectoryBlock>
    var DBHeight: uint32
    var CurrentAdminBlock: Option<AdminBlock>

    /** new(State): every field zero or absent. */
    constructor ()
      ensures NetworkNumber == 0 && TotalServers == 0 && ServerState == 0
      ensures Queues == QueueCapacities(0, 0, 0, 0, 0, 0)
      ensures DB == None && CurrentDirectoryBlock == None && DBHeight == 0 && CurrentAdminBlock == None
    {
      NetworkNumber, TotalServers, ServerState := 0, 0, 0;
      Queues := QueueCapacities(0, 0, 0, 0, 0, 0);
      DB, CurrentDirectoryBlock, DBHeight, CurrentAdminBlock := None, None, 0, None;
    }

    /** Whether this node leads for a key: only a lone server on the local
        network leads, and then for every key. */
    function LeaderFor(key: Bytes): (r: bool)
      reads this
      ensures r <==> TotalServers == 1 && ServerState == 1 && NetworkNumber == NetworkLocal
    {
      if TotalServers == 1 && ServerState == 1 && NetworkNumber == 2 then true else false
    }

    /** Init's role part, for the configured network name `network`: make
        the six queues, become the only server, then select the network. A
        name that is none of the four is refused (the source panics, after
        the queues and roles are set). */
    method Init(network: string) returns (ok: bool)
      modifies this`Queues, this`TotalServers, this`ServerState, this`NetworkNumber
      ensures Queues == QueueCapacities(QueueCapacity, QueueCapacity, QueueCapacity,
                                        QueueCapacity, QueueCapacity, QueueCapacity)
      ensures TotalServers == 1 && ServerState == 1
      ensures ok == ParseNetwork(network).Some?
      ensures NetworkNumber == if ok then ParseNetwork(network).value else old(NetworkNumber)
    {
      Queues := QueueCapacities(QueueCapacity, QueueCapacity, QueueCapacity,
                                QueueCapacity, QueueCapacity, QueueCapacity);
      TotalServers := 1;
      ServerState := 1;
      if network == "MAIN" {
        NetworkNumber := NetworkMain;
      } else if network == "TEST" {
        NetworkNumber := NetworkTest;
      } else if network == "LOCAL" {
        NetworkNumber := NetworkLocal;
      } else if network == "CUSTOM" {
        NetworkNumber := NetworkCustom;
      } else {
        return false;
      }
      ok := true;
    }

    function GetDBHeight(): uint32
      reads this
    {
      DBHeight
    }

    method SetDBHeight(dbheight: uint32)
      modifies this`DBHeight
      ensures GetDBHeight() == dbheight
    {
      DBHeight := dbheight;
    }

    function GetCurrentDirectoryBlock(): Option<DirectoryBlock>
      reads this
    {
      CurrentDirectoryBlock
    }

    method SetCurrentDirectoryBlock(dirblk: Option<DirectoryBlock>)
      modifies this`CurrentDirectoryBlock
      ensures GetCurrentDirectoryBlock() == dirblk
    {
      CurrentDirectoryBlock := dirblk;
    }

    function GetCurrentAdminBlock(): Option<AdminBlock>
      reads this
    {
      CurrentAdminBlock
    }

    method SetCurrentAdminBlock(adblock: Option<AdminBlock>)
      modifies this`CurrentAdminBlock
      ensures GetCurrentAdminBlock() == adblock
    {
      CurrentAdminBlock := adblock;
    }

    function GetDB(): Option<Database>
      reads this
    {
      DB
    }

    method SetDB(db: Option<Database>)
      modifies this`DB
      ensures GetDB() == db
    {
      DB := db;
    }
  }

  /** After a successful Init the node leads, for every key, exactly when
      the configured network is LOCAL. */
  lemma LeaderAfterInit(s: State, network: string, key: Bytes)
    requires s.TotalServers == 1 && s.ServerState == 1
    requires ParseNetwork(network) == Some(s.NetworkNumber)
    ensures s.LeaderFor(key) <==> network == "LOCAL"
  {
  }
}
