/** Name-keyed tables as insertion-ordered maps build them: keys in order of
    first appearance, the last value of a key wins. */
module Tables {
  import opened Ir

  function KeyOrder(names: seq<string>): (keys: seq<string>)
    ensures Distinct(keys)
  {
    if names == [] then []
    else
      var keys, last := KeyOrder(names[..|names| - 1]), names[|names| - 1];
      if last in keys then keys else keys + [last]
  }

  lemma {:induction false} KeyOrderKeeps(names: seq<string>, n: string)
    ensures n in KeyOrder(names) <==> n in names
  {
    if names != [] {
      var init := names[..|names| - 1];
      assert names == init + [names[|names| - 1]];
      KeyOrderKeeps(init, n);
    }
  }

  function StageTable(stages: seq<Stage>): (table: map<string, Stage>)
    ensures forall n :: n in table ==> table[n].name == n
  {
    if stages == [] then map[]
    else
      var last := stages[|stages| - 1];
      StageTable(stages[..|stages| - 1])[last.name := last]
  }

  function PortTable(ports: seq<Port>): (table: map<string, Port>)
    ensures forall n :: n in table ==> table[n].name == n
  {
    if ports == [] then map[]
    else
      var last := ports[|ports| - 1];
      PortTable(ports[..|ports| - 1])[last.name := last]
  }

  function StageKeys(stages: seq<Stage>): seq<string> {
    KeyOrder(StageNames(stages))
  }

  function PortKeys(ports: seq<Port>): seq<string> {
    KeyOrder(PortNames(ports))
  }

  /** The keys of a table, in order: exactly its domain. */
  ghost predicate Keys<T>(keys: seq<string>, table: map<string, T>) {
    forall n :: n in keys <==> n in table
  }

  lemma {:induction false} StageTableKeys(stages: seq<Stage>)
    ensures Keys(StageKeys(stages), StageTable(stages))
  {
    if stages != [] {
      var init := stages[..|stages| - 1];
      assert StageNames(stages) == StageNames(init) + [stages[|stages| - 1].name];
      assert StageNames(stages)[..|stages| - 1] == StageNames(init);
      StageTableKeys(init);
    }
  }

  lemma {:induction false} PortTableKeys(ports: seq<Port>)
    ensures Keys(PortKeys(ports), PortTable(ports))
  {
    if ports != [] {
      var init := ports[..|ports| - 1];
      assert PortNames(ports) == PortNames(init) + [ports[|ports| - 1].name];
      assert PortNames(ports)[..|ports| - 1] == PortNames(init);
      PortTableKeys(init);
    }
  }

  method BuildStageTable(stages: seq<Stage>) returns (keys: seq<string>, table: map<string, Stage>)
    ensures keys == StageKeys(stages) && table == StageTable(stages) && Keys(keys, table)
  {
    keys, table := [], map[];
    for k := 0 to |stages|
      invariant keys == StageKeys(stages[..k]) && table == StageTable(stages[..k]) && Keys(keys, table)
    {
      assert stages[..k + 1][..k] == stages[..k];
      assert StageNames(stages[..k + 1])[..k] == StageNames(stages[..k]);
      if stages[k].name !in table { keys := keys + [stages[k].name]; }
      table := table[stages[k].name := stages[k]];
    }
    assert stages[..|stages|] == stages;
  }

  method BuildPortTable(ports: seq<Port>) returns (keys: seq<string>, table: map<string, Port>)
    ensures keys == PortKeys(ports) && table == PortTable(ports) && Keys(keys, table)
  {
    keys, table := [], map[];
    for k := 0 to |ports|
      invariant keys == PortKeys(ports[..k]) && table == PortTable(ports[..k]) && Keys(keys, table)
    {
      assert ports[..k + 1][..k] == ports[..k];
      assert PortNames(ports[..k + 1])[..k] == PortNames(ports[..k]);
      if ports[k].name !in table { keys := keys + [ports[k].name]; }
      table := table[ports[k].name := ports[k]];
    }
    assert ports[..|ports|] == ports;
  }
}
