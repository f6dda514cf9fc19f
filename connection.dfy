/**
 * The connection bookkeeping of the SQLite adapter: a pool that counts the
 * connections it has handed out, connections that remember the change
 * count of their last `run`, and an adapter that refuses to close the
 * database while any connection is still out. The driver itself is not
 * modelled: a statement's effect enters as the change count it reports.
 */
module Connection {
  import opened Common

  /** `SQLiteConnectionPool`: hands out connections on one shared database handle. */
  class ConnectionPool {
    var activeConnections: int

    constructor ()
      ensures activeConnections == 0
    {
      activeConnections := 0;
    }

    /** `getConnection`: one more active connection, a new connection object on this pool. */
    method GetConnection() returns (c: SqliteConnection)
      modifies this
      ensures activeConnections == old(activeConnections) + 1
      ensures fresh(c) && c.pool == this && c.changes == 0
    {
      activeConnections := activeConnections + 1;
      c := new SqliteConnection(this);
    }
  }

  /** `SQLiteConnection`: the `changes` field holds the change count of the last `run`. */
  class SqliteConnection {
    const pool: ConnectionPool
    var changes: int

    constructor (pool: ConnectionPool)
      ensures this.pool == pool && changes == 0
    {
      this.pool := pool;
      changes := 0;
    }

    /**
     * `run`: the driver executes the statement and reports `affected`
     * changed rows; the connection records that count and nothing else.
     */
    method Run(affected: int)
      modifies this
      ensures changes == affected && GetChanges() == affected
    {
      changes := affected;
    }

    /** `getChanges`: the change count the last `run` recorded. */
    function GetChanges(): (n: int)
      reads this
      ensures n == changes
    {
      changes
    }

    /** `release`, inherited from the SQL layer: the pool counts one connection fewer. */
    method Release()
      modifies pool
      ensures pool.activeConnections == old(pool.activeConnections) - 1
    {
      pool.activeConnections := pool.activeConnections - 1;
    }
  }

  /** `SQLiteDatabaseAdapter`: owns the database handle and the pool. */
  class DatabaseAdapter {
    const connectionPool: ConnectionPool
    var open: bool

    constructor ()
      ensures fresh(connectionPool) && connectionPool.activeConnections == 0 && open
    {
      connectionPool := new ConnectionPool();
      open := true;
    }

    /**
     * `disconnect`: throws while any connection is still active; otherwise
     * closes the database handle.
     */
    method Disconnect() returns (outcome: Outcome)
      modifies this
      ensures outcome == if connectionPool.activeConnections > 0 then Threw(ConnectionsStillActive) else Done
      ensures open == (old(open) && outcome.Threw?)
    {
      if connectionPool.activeConnections > 0 {
        return Threw(ConnectionsStillActive);
      }
      open := false;
      outcome := Done;
    }
  }
}
