/** The row builder of `_tasks`: for every resolved address, the rows it
    adds to the `Ip` / `TaskId` table from the parsed reply of the remote
    listing, walking the service types in order with a counter of the
    types that raised `KeyError`. */
module TaskRows {
  import opened Wrappers
  import opened TargetResolver

  /** `constants.services_type`, walked in this order. */
  const SERVICE_TYPES: seq<string> := ["daemon", "docker", "service"]
  /** The table's header. */
  const COLUMNS: seq<string> := ["Ip", "TaskId"]
  const NO_TASKS := "No tasks running"
  const IP_NOT_VALID := "IP not valid"

  /** One task entry of the parsed listing: its named fields. */
  type Entry = map<string, string>

  /** The outcome of the remote command for one address: it failed
      (`CalledProcessError`), or its output parsed to a map from service
      type to that type's entries. */
  datatype Reply = CommandFailed | Parsed(resp: map<string, seq<Entry>>)

  /** One table row: the address and the task label. */
  datatype Row = Row(ip: string, task: string)

  /** What one service type contributes: its rows, and whether it raised
      `KeyError` (type absent, or an entry without the field). */
  datatype Outcome = Outcome(rows: seq<Row>, miss: bool)

  /** The entry field that names a task of the given type: `Name` for
      daemons, `TaskName` for docker and service tasks; other types add
      no rows. */
  function Field(serviceType: string): Option<string> {
    if serviceType == "daemon" then Some("Name")
    else if serviceType == "service" || serviceType == "docker" then Some("TaskName")
    else None
  }

  /** Whether an entry of the given type has the field the loop reads. */
  predicate HasField(serviceType: string, x: Entry) {
    Field(serviceType).None? || Field(serviceType).value in x
  }

  /** `for x in xs: table.add_row([ip, x[field]])`: one row per entry, up
      to the first entry without the field, which raises `KeyError`. */
  function EntryRows(ip: string, serviceType: string, xs: seq<Entry>): (o: Outcome)
    ensures |o.rows| <= |xs|
  {
    if xs == [] then Outcome([], false)
    else if !HasField(serviceType, xs[0]) then Outcome([], true)
    else
      var rest := EntryRows(ip, serviceType, xs[1..]);
      var row := if Field(serviceType).Some? then [Row(ip, xs[0][Field(serviceType).value])] else [];
      Outcome(row + rest.rows, rest.miss)
  }

  /** The `try` block for one service type. */
  function TypeOutcome(ip: string, serviceType: string, resp: map<string, seq<Entry>>): Outcome {
    if serviceType !in resp then Outcome([], true)
    else EntryRows(ip, serviceType, resp[serviceType])
  }

  /** The rows of the given types, in order. */
  function TypeRows(ip: string, types: seq<string>, resp: map<string, seq<Entry>>): seq<Row> {
    if types == [] then []
    else TypeRows(ip, types[..|types| - 1], resp) + TypeOutcome(ip, types[|types| - 1], resp).rows
  }

  /** How many of the given types raised `KeyError`. */
  function MissCount(types: seq<string>, resp: map<string, seq<Entry>>): (n: nat)
    ensures n <= |types|
  {
    if types == [] then 0
    else MissCount(types[..|types| - 1], resp) + (if TypeOutcome("", types[|types| - 1], resp).miss then 1 else 0)
  }

  /** The rows one address adds: a single `IP not valid` row when the
      command failed; otherwise the rows of every service type, followed
      by `No tasks running` exactly when all three types raised
      `KeyError`. */
  function IpRows(ip: string, reply: Reply): seq<Row> {
    match reply
    case CommandFailed => [Row(ip, IP_NOT_VALID)]
    case Parsed(resp) =>
      TypeRows(ip, SERVICE_TYPES, resp)
      + (if MissCount(SERVICE_TYPES, resp) == |SERVICE_TYPES| then [Row(ip, NO_TASKS)] else [])
  }

  /** The rows of all addresses, address after address. */
  function AllRows(ips: seq<string>, replies: seq<Reply>): seq<Row>
    requires |ips| == |replies|
  {
    if ips == [] then []
    else IpRows(ips[0], replies[0]) + AllRows(ips[1..], replies[1..])
  }

  // ---------------------------------------------------------------------
  // The table

  /** The PrettyTable `_tasks` fills, as its header and its rows. */
  class TaskTable {
    var columns: seq<string>
    var rows: seq<Row>

    constructor()
      ensures columns == COLUMNS && rows == []
    {
      columns := COLUMNS;
      rows := [];
    }

    /** `table.add_row([ip, label])` */
    method AddRow(row: Row)
      modifies this
      ensures rows == old(rows) + [row]
      ensures columns == old(columns)
    {
      rows := rows + [row];
    }

    /** The `try` block for one service type: the rows of its entries,
        stopping at the first entry without the field; reports whether
        `KeyError` was raised. */
    method AddTypeRows(ip: string, serviceType: string, resp: map<string, seq<Entry>>) returns (miss: bool)
      modifies this
      ensures rows == old(rows) + TypeOutcome(ip, serviceType, resp).rows
      ensures miss == TypeOutcome(ip, serviceType, resp).miss
      ensures columns == old(columns)
    {
      if serviceType !in resp {
        return true;
      }
      var xs := resp[serviceType];
      miss := false;
      var j := 0;
      while j < |xs| && !miss
        invariant 0 <= j <= |xs|
        invariant columns == old(columns)
        invariant !miss ==> rows + EntryRows(ip, serviceType, xs[j..]).rows == old(rows) + EntryRows(ip, serviceType, xs).rows
        invariant !miss ==> EntryRows(ip, serviceType, xs[j..]).miss == EntryRows(ip, serviceType, xs).miss
        invariant miss ==> rows == old(rows) + EntryRows(ip, serviceType, xs).rows && EntryRows(ip, serviceType, xs).miss
        decreases |xs| - j, !miss
      {
        var x := xs[j];
        assert xs[j..][1..] == xs[j + 1..];
        if !HasField(serviceType, x) {
          miss := true;
        } else {
          var field := Field(serviceType);
          if field.Some? {
            AddRow(Row(ip, x[field.value]));
          }
          j := j + 1;
        }
      }
      if !miss {
        assert xs[j..] == [];
      }
    }

    /** The rows one address adds: `IP not valid` when the command failed,
        otherwise the rows of every service type, with the counter
        `services_type_without_tasks` deciding when `No tasks running` is
        added. */
    method AddIpRows(ip: string, reply: Reply)
      modifies this
      ensures rows == old(rows) + IpRows(ip, reply)
      ensures columns == old(columns)
    {
      if reply.CommandFailed? {
        AddRow(Row(ip, IP_NOT_VALID));
        return;
      }
      var resp := reply.resp;
      var withoutTasks := 0;
      for k := 0 to |SERVICE_TYPES|
        invariant columns == old(columns)
        invariant withoutTasks == Min(MissCount(SERVICE_TYPES[..k], resp), 2)
        invariant rows == old(rows) + TypeRows(ip, SERVICE_TYPES[..k], resp) + NoTasksRows(ip, SERVICE_TYPES[..k], resp)
      {
        var serviceType := SERVICE_TYPES[k];
        assert SERVICE_TYPES[..k + 1][..k] == SERVICE_TYPES[..k];
        NoTasksOnlyAtEnd(ip, SERVICE_TYPES[..k], resp);
        var miss := AddTypeRows(ip, serviceType, resp);
        MissCountIp(ip, serviceType, resp);
        if miss {
          if withoutTasks == 2 {
            AddRow(Row(ip, NO_TASKS));
          } else {
            withoutTasks := withoutTasks + 1;
          }
        }
      }
      assert SERVICE_TYPES[..|SERVICE_TYPES|] == SERVICE_TYPES;
    }

    /** `for ip in _get_ips_list(ips)`: the rows of each address in turn. */
    method AddAllRows(ips: seq<string>, replies: seq<Reply>)
      requires |ips| == |replies|
      modifies this
      ensures rows == old(rows) + AllRows(ips, replies)
      ensures columns == old(columns)
    {
      for k := 0 to |ips|
        invariant columns == old(columns)
        invariant rows == old(rows) + AllRows(ips[..k], replies[..k])
      {
        ghost var done := AllRows(ips[..k], replies[..k]);
        AllRowsSnoc(ips, replies, k);
        AddIpRows(ips[k], replies[k]);
        assert old(rows) + done + IpRows(ips[k], replies[k]) == old(rows) + (done + IpRows(ips[k], replies[k]));
      }
      assert ips[..|ips|] == ips;
      assert replies[..|replies|] == replies;
    }
  }

  function Min(a: int, b: int): int {
    if a <= b then a else b
  }

  /** The `No tasks running` row that a prefix of the service types has
      added so far. */
  function NoTasksRows(ip: string, types: seq<string>, resp: map<string, seq<Entry>>): seq<Row> {
    if MissCount(types, resp) == 3 then [Row(ip, NO_TASKS)] else []
  }

  /** Before the last type no third miss can have happened. */
  lemma NoTasksOnlyAtEnd(ip: string, types: seq<string>, resp: map<string, seq<Entry>>)
    requires |types| < 3
    ensures NoTasksRows(ip, types, resp) == []
  {
  }

  /** Whether a type misses does not depend on the address. */
  lemma {:induction false} MissCountIp(ip: string, serviceType: string, resp: map<string, seq<Entry>>)
    ensures TypeOutcome(ip, serviceType, resp).miss == TypeOutcome("", serviceType, resp).miss
  {
    if serviceType in resp {
      EntryMissIp(ip, "", serviceType, resp[serviceType]);
    }
  }

  lemma {:induction false} EntryMissIp(ip: string, ip': string, serviceType: string, xs: seq<Entry>)
    ensures EntryRows(ip, serviceType, xs).miss == EntryRows(ip', serviceType, xs).miss
  {
    if xs != [] && HasField(serviceType, xs[0]) {
      EntryMissIp(ip, ip', serviceType, xs[1..]);
    }
  }

  /** `_tasks` after resolving `ips`: one table, rows accumulated address
      after address in resolver order. The replies of the remote command
      are given, one per resolved address. */
  method Tasks(ips: Option<string>, replies: seq<Reply>) returns (table: TaskTable)
    requires Resolve(ips).Targets? && |replies| == |Resolve(ips).valid|
    ensures fresh(table)
    ensures table.columns == COLUMNS
    ensures table.rows == AllRows(Resolve(ips).valid, replies)
  {
    var resolution, published := GetIpsList(ips);
    table := new TaskTable();
    table.AddAllRows(resolution.valid, replies);
  }

  // ---------------------------------------------------------------------
  // Properties of the rows

  /** The rows of several addresses are the rows of each, in order:
      adding an address never changes the rows of the earlier ones. */
  lemma {:induction false} AllRowsAppend(a: seq<string>, ra: seq<Reply>, b: seq<string>, rb: seq<Reply>)
    requires |a| == |ra| && |b| == |rb|
    ensures AllRows(a + b, ra + rb) == AllRows(a, ra) + AllRows(b, rb)
  {
    if a == [] {
      assert a + b == b && ra + rb == rb;
    } else {
      assert (a + b)[1..] == a[1..] + b && (ra + rb)[1..] == ra[1..] + rb;
      AllRowsAppend(a[1..], ra[1..], b, rb);
    }
  }

  lemma AllRowsSnoc(ips: seq<string>, replies: seq<Reply>, k: nat)
    requires |ips| == |replies| && k < |ips|
    ensures AllRows(ips[..k + 1], replies[..k + 1]) == AllRows(ips[..k], replies[..k]) + IpRows(ips[k], replies[k])
  {
    AllRowsAppend(ips[..k], replies[..k], [ips[k]], [replies[k]]);
    assert ips[..k + 1] == ips[..k] + [ips[k]];
    assert replies[..k + 1] == replies[..k] + [replies[k]];
    assert AllRows([ips[k]], [replies[k]]) == IpRows(ips[k], replies[k]) + AllRows([], []);
  }

  /** Every row an entry list contributes carries the address. */
  lemma {:induction false} EntryRowsIp(ip: string, serviceType: string, xs: seq<Entry>)
    ensures forall r :: r in EntryRows(ip, serviceType, xs).rows ==> r.ip == ip
  {
    if xs != [] && HasField(serviceType, xs[0]) {
      EntryRowsIp(ip, serviceType, xs[1..]);
    }
  }

  lemma {:induction false} TypeRowsIp(ip: string, types: seq<string>, resp: map<string, seq<Entry>>)
    ensures forall r :: r in TypeRows(ip, types, resp) ==> r.ip == ip
  {
    if types != [] {
      TypeRowsIp(ip, types[..|types| - 1], resp);
      var st := types[|types| - 1];
      if st in resp {
        EntryRowsIp(ip, st, resp[st]);
      }
    }
  }

  /** Every row added for an address carries that address. */
  lemma IpRowsIp(ip: string, reply: Reply)
    ensures forall r :: r in IpRows(ip, reply) ==> r.ip == ip
  {
    if reply.Parsed? {
      TypeRowsIp(ip, SERVICE_TYPES, reply.resp);
    }
  }

  /** Every entry of every present type has the field its type reads. */
  predicate WellFormed(resp: map<string, seq<Entry>>) {
    forall st, k :: st in resp && 0 <= k < |resp[st]| ==> HasField(st, resp[st][k])
  }

  /** Entries that all have the field give one row each, labelled by that
      field, and raise no `KeyError`. */
  lemma {:induction false} EntryRowsComplete(ip: string, serviceType: string, xs: seq<Entry>)
    requires Field(serviceType).Some?
    requires forall k :: 0 <= k < |xs| ==> Field(serviceType).value in xs[k]
    ensures !EntryRows(ip, serviceType, xs).miss
    ensures |EntryRows(ip, serviceType, xs).rows| == |xs|
    ensures forall k :: 0 <= k < |xs| ==>
      EntryRows(ip, serviceType, xs).rows[k] == Row(ip, xs[k][Field(serviceType).value])
  {
    if xs != [] {
      EntryRowsComplete(ip, serviceType, xs[1..]);
      var rest := EntryRows(ip, serviceType, xs[1..]).rows;
      var rows := EntryRows(ip, serviceType, xs).rows;
      assert rows == [Row(ip, xs[0][Field(serviceType).value])] + rest;
      forall k | 0 < k < |xs| ensures rows[k] == Row(ip, xs[k][Field(serviceType).value]) {
        assert rows[k] == rest[k - 1];
        assert xs[1..][k - 1] == xs[k];
      }
    }
  }

  /** An entry without the field raises `KeyError` after the rows of the
      entries before it were added. */
  lemma {:induction false} EntryRowsPartial(ip: string, serviceType: string, xs: seq<Entry>, bad: nat)
    requires Field(serviceType).Some?
    requires bad < |xs| && !HasField(serviceType, xs[bad])
    requires forall k :: 0 <= k < bad ==> HasField(serviceType, xs[k])
    ensures EntryRows(ip, serviceType, xs).miss
    ensures EntryRows(ip, serviceType, xs).rows == EntryRows(ip, serviceType, xs[..bad]).rows
  {
    if bad > 0 {
      assert xs[..bad][1..] == xs[1..][..bad - 1];
      EntryRowsPartial(ip, serviceType, xs[1..], bad - 1);
      assert xs[..bad][0] == xs[0];
    }
  }

  /** With well-formed entries, a type misses exactly when it is absent. */
  lemma MissIffAbsent(ip: string, serviceType: string, resp: map<string, seq<Entry>>)
    requires WellFormed(resp) && Field(serviceType).Some?
    ensures TypeOutcome(ip, serviceType, resp).miss <==> serviceType !in resp
  {
    if serviceType in resp {
      EntryRowsComplete(ip, serviceType, resp[serviceType]);
    }
  }

  /** The three service types in their order: the rows are daemon rows,
      then docker rows, then service rows, and the misses add up. */
  lemma ServiceTypesInOrder(ip: string, resp: map<string, seq<Entry>>)
    ensures TypeRows(ip, SERVICE_TYPES, resp)
         == TypeOutcome(ip, "daemon", resp).rows + TypeOutcome(ip, "docker", resp).rows + TypeOutcome(ip, "service", resp).rows
    ensures MissCount(SERVICE_TYPES, resp)
         == (if TypeOutcome("", "daemon", resp).miss then 1 else 0)
          + (if TypeOutcome("", "docker", resp).miss then 1 else 0)
          + (if TypeOutcome("", "service", resp).miss then 1 else 0)
  {
    var t2, t1 := ["daemon", "docker"], ["daemon"];
    assert SERVICE_TYPES[..2] == t2 && t2[..1] == t1 && t1[..0] == [];
    assert TypeRows(ip, t1, resp) == TypeOutcome(ip, "daemon", resp).rows;
    assert MissCount(t1, resp) == if TypeOutcome("", "daemon", resp).miss then 1 else 0;
  }

  /** With well-formed entries, `No tasks running` is added exactly when
      none of the three service types is present, and then it is the only
      row; otherwise only the entries' rows are added. */
  lemma NoTasksIffAllAbsent(ip: string, resp: map<string, seq<Entry>>)
    requires WellFormed(resp)
    ensures MissCount(SERVICE_TYPES, resp) == 3 <==> forall st :: st in SERVICE_TYPES ==> st !in resp
    ensures (forall st :: st in SERVICE_TYPES ==> st !in resp) ==> IpRows(ip, Parsed(resp)) == [Row(ip, NO_TASKS)]
    ensures (exists st :: st in SERVICE_TYPES && st in resp) ==> IpRows(ip, Parsed(resp)) == TypeRows(ip, SERVICE_TYPES, resp)
  {
    ServiceTypesInOrder(ip, resp);
    assert (forall st :: st in SERVICE_TYPES ==> st !in resp) <==> "daemon" !in resp && "docker" !in resp && "service" !in resp;
    MissIffAbsent("", "daemon", resp);
    MissIffAbsent("", "docker", resp);
    MissIffAbsent("", "service", resp);
    MissIffAbsent(ip, "daemon", resp);
    MissIffAbsent(ip, "docker", resp);
    MissIffAbsent(ip, "service", resp);
  }
}
