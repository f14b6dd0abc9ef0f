/**
 * The SQLite store of second factors (`SqliteSecondFactors`): one sealed row per account, whose version every write
 * compares. Calls do not overlap, so each is one of the atomic steps of `SecondFactor`.
 */
module SqliteFactors {
  import opened Wrappers
  import opened SecondFactor
  import opened Acceptance

  type Account = string

  /** A sealed factor: what opening it gives, None where it cannot be opened, and the version of its bytes. */
  datatype Row = Row(factor: Option<Factor>, version: Version)

  datatype Outcome = IsAccepted | IsRefused | IsLocked

  class SqliteSecondFactors {
    var table: map<Account, Row>
    /** Sealing draws a random vector, so no two payloads are the same: the version of the next one. */
    var nextVersion: Version

    ghost predicate Valid()
      reads this
    {
      forall account <- table :: table[account].version < nextVersion
    }

    /** What one account's requests see of the store. */
    ghost function Seen(account: Account): State
      reads this
    {
      var stored := if account in table && table[account].factor.Some?
                    then Some(Stored(table[account].factor.value, table[account].version)) else None;
      INIT.(stored := stored, nextVersion := nextVersion)
    }

    ghost predicate Opens(account: Account)
      reads this
    {
      account in table ==> table[account].factor.Some?
    }

    constructor ()
      ensures Valid() && table == map[]
    {
      table, nextVersion := map[], 0;
    }

    method Seal(f: Factor) returns (row: Row)
      requires Valid()
      modifies this`nextVersion
      ensures row == Row(Some(f), old(nextVersion)) && nextVersion == old(nextVersion) + 1
    {
      row := Row(Some(f), nextVersion);
      nextVersion := nextVersion + 1;
    }

    /** The factor and its version; an unreadable row is deleted and read as no factor at all. */
    method Get(account: Account) returns (r: Option<Stored>)
      requires Valid()
      modifies this`table
      ensures Valid() && r == old(Seen(account)).stored && Seen(account) == old(Seen(account))
      ensures Opens(account) && table == if old(Opens(account)) then old(table) else old(table) - {account}
    {
      if account !in table { return None; }
      var row := table[account];
      if row.factor.None? {
        table := table - {account};
        return None;
      }
      r := Some(Stored(row.factor.value, row.version));
    }

    /** With a version the write lands on exactly that one; it becomes the next version, and no other account is touched. */
    method Set(account: Account, f: Factor, expected: Option<Version>) returns (landed: bool)
      requires Valid()
      modifies this
      ensures Valid() && (landed || old(Opens(account)) ==> Opens(account))
      ensures landed <==> expected.None? || (account in old(table) && old(table)[account].version == expected.value)
      ensures old(Opens(account)) ==> (landed <==> expected.None? || SetLands(old(Seen(account)), expected.value))
      ensures landed ==> Seen(account) == Write(old(Seen(account)), f)
      ensures !landed ==> table == old(table)
      ensures table - {account} == old(table) - {account}
    {
      var row := Seal(f);
      if expected.Some? && (account !in table || table[account].version != expected.value) { return false; }
      table := table[account := row];
      landed := true;
    }

    /** Lands only while the account has no row. */
    method Create(account: Account, f: Factor) returns (landed: bool)
      requires Valid()
      modifies this
      ensures Valid() && (landed || old(Opens(account)) ==> Opens(account))
      ensures landed <==> account !in old(table)
      ensures old(Opens(account)) ==> (landed <==> old(Seen(account)).stored.None?)
      ensures landed ==> Seen(account) == Write(old(Seen(account)), f)
      ensures !landed ==> table == old(table)
      ensures table - {account} == old(table) - {account}
    {
      var row := Seal(f);
      if account in table { return false; }
      table := table[account := row];
      landed := true;
    }

    method Clear(account: Account, expected: Option<Version>) returns (landed: bool)
      requires Valid()
      modifies this`table
      ensures Valid() && (landed || old(Opens(account)) ==> Opens(account))
      ensures landed <==> expected.None? || (account in old(table) && old(table)[account].version == expected.value)
      ensures old(Opens(account)) ==> (landed <==> expected.None? || SetLands(old(Seen(account)), expected.value))
      ensures table == if landed then old(table) - {account} else old(table)
      ensures landed ==> Seen(account).stored.None?
    {
      if expected.Some? && (account !in table || table[account].version != expected.value) { return false; }
      table := table - {account};
      landed := true;
    }

    /**
     * `attempt`, when nothing comes between its steps: the miss is written before the proof is looked at, so a refused
     * proof has been counted; an accepted one leaves what was looked at, without the count, and what it used up spent.
     */
    method Attempt(c: Crypto, account: Account, read: Stored, now: nat, proof: Proof, login: bool) returns (r: Outcome)
      requires Valid() && Opens(account)
      modifies this
      ensures Valid() && Opens(account) && table - {account} == old(table) - {account}
      ensures r == IsLocked <==> LockLeftMs(read.factor, now) > 0
      ensures r == IsLocked || !SetLands(old(Seen(account)), read.version) ==> table == old(table)
      ensures LockLeftMs(read.factor, now) == 0 && SetLands(old(Seen(account)), read.version) ==>
                && (r == IsAccepted <==> exists spent :: Right(c, read.factor, proof, login, now, spent))
                && Seen(account).stored.Some?
                && var left := Seen(account).stored.value.factor;
                   if r == IsAccepted
                   then exists spent :: Right(c, read.factor, proof, login, now, spent) && Leaves(read.factor, proof, spent, left)
                   else left == WithMiss(read.factor, now)
      ensures !SetLands(old(Seen(account)), read.version) ==> r != IsAccepted
    {
      if LockLeftMs(read.factor, now) > 0 { return IsLocked; }
      var counted := Set(account, WithMiss(read.factor, now), Some(read.version));
      if !counted { return IsRefused; }
      var reread := Get(account);
      if reread.None? { return IsRefused; }
      assert WithoutMisses(reread.value.factor) == WithoutMisses(read.factor);
      var seen := Look(c, WithoutMisses(reread.value.factor), proof, login, now);
      LookIsRight(c, read.factor, proof, login, now);
      hide Look, Right, Leaves;
      if seen.None? { return IsRefused; }
      var spent := Set(account, seen.value.0, Some(reread.value.version));
      r := if spent then IsAccepted else IsRefused;
    }

    /** One pass of `changeFactor`, when nothing comes between its read and its write: None where the enrolment is stale. */
    method ChangeOnce(account: Account, change: Change) returns (r: Option<bool>)
      requires Valid()
      modifies this
      ensures Valid() && Opens(account) && table - {account} == old(table) - {account}
      ensures var stored := old(Seen(account)).stored;
              var current := if stored.None? then None else Some(stored.value.factor);
              && r == (if Enrols(change) && (current.Some? <==> |change.hashes| > 0) then None else Some(true))
              && (if r.None? then Seen(account) == old(Seen(account))
                  else Makes(change, current, FactorOf(Seen(account).stored)))
    {
      var current := Get(account);
      var factor := if current.None? then None else Some(current.value.factor);
      if Stale(change, factor) { return None; }
      var next := Apply(change, factor);
      ApplyMakes(change, factor);
      hide Apply, Makes;
      var landed := false;
      if next.None? {
        landed := Clear(account, if current.None? then None else Some(current.value.version));
      } else if current.Some? {
        landed := Set(account, next.value, Some(current.value.version));
      } else {
        landed := Create(account, next.value);
      }
      r := Some(landed);
    }
  }
}
