/**
 The JSON object published for a slave list: one entry per slave, keyed by name
 and number, beside a time stamp.
 */
module Publishing {
  import opened SlaveData
  import opened Slaves
  import Decimal

  function Key(id: Identity): string {
    id.name + " " + Decimal.OfInt(id.number)
  }

  /** The number is what follows the last space, so names may contain spaces. */
  lemma KeyIsInjective(a: Identity, b: Identity)
    ensures Key(a) == Key(b) <==> a.name == b.name && a.number == b.number
  {
    if Key(a) == Key(b) {
      Decimal.OfIntHasNoSpace(a.number);
      Decimal.OfIntHasNoSpace(b.number);
      var da, db := Decimal.OfInt(a.number), Decimal.OfInt(b.number);
      assert Key(a)[|a.name|] == ' ' && Key(b)[|b.name|] == ' ';
      assert forall k :: |a.name| < k < |Key(a)| ==> Key(a)[k] == da[k - |a.name| - 1];
      assert forall k :: |b.name| < k < |Key(b)| ==> Key(b)[k] == db[k - |b.name| - 1];
      assert |a.name| == |b.name|;
      assert a.name == Key(a)[..|a.name|] && b.name == Key(b)[..|b.name|];
      assert da == Key(a)[|a.name| + 1..] && db == Key(b)[|b.name| + 1..];
      Decimal.OfIntInjective(a.number, b.number);
    }
  }

  /** The key is the name, a space and a decimal that reads back as the number. */
  lemma KeyIsNameAndNumber(id: Identity)
    ensures var n, key := |id.name|, Key(id);
            && |key| > n + 1 && key[..n] == id.name && key[n] == ' '
            && (id.number >= 0 ==> IsNumber(key[n + 1..], id.number))
            && (id.number < 0 ==> key[n + 1] == '-' && IsNumber(key[n + 2..], -id.number))
  {
    var n, key := |id.name|, Key(id);
    if id.number >= 0 {
      Decimal.ReadBack(id.number);
      assert key[n + 1..] == Decimal.OfNat(id.number);
    } else {
      Decimal.ReadBack(-id.number);
      assert key[n + 2..] == Decimal.OfNat(-id.number);
    }
  }

  predicate IsNumber(text: string, n: nat) {
    (forall k :: 0 <= k < |text| ==> Decimal.IsDigit(text[k])) && Decimal.ToNat(text) == n
  }

  lemma KeyIsNotTimestamp(id: Identity)
    ensures Key(id) != "timestamp"
  {
    assert Key(id)[|id.name|] == ' ';
    assert ' ' !in "timestamp";
  }

  datatype Value = Time(milliseconds: int) | SlaveValue(slaveType: SlaveType, contents: Contents)

  /** A member of the root object. */
  datatype Member = Member(key: string, value: Value)

  /** The object after the first n members were assigned: a repeated key overwrites. */
  function Object(first: Member, members: seq<Member>, n: nat): map<string, Value>
    requires n <= |members|
  {
    if n == 0 then Assign(map[], first)
    else Assign(Object(first, members, n - 1), members[n - 1])
  }

  function Assign(object': map<string, Value>, m: Member): map<string, Value> {
    object'[m.key := m.value]
  }

  /** No member of the first n has the key of another or of `first`. */
  ghost predicate DistinctKeys(first: Member, members: seq<Member>, n: nat)
    requires n <= |members|
  {
    && (forall i :: 0 <= i < n ==> members[i].key != first.key)
    && (forall i, j :: 0 <= i < j < n ==> members[i].key != members[j].key)
  }

  lemma {:induction false} ObjectKeys(first: Member, members: seq<Member>, n: nat)
    requires n <= |members|
    ensures forall k :: k in Object(first, members, n)
                   <==> k == first.key || exists i :: 0 <= i < n && members[i].key == k
  {
    if n != 0 {
      ObjectKeys(first, members, n - 1);
    }
  }

  lemma AssignSize(before: map<string, Value>, key: string, value: Value)
    ensures |before[key := value]| == |before| + (if key in before then 0 else 1)
  {
    var after := before[key := value];
    assert after.Keys == before.Keys + {key};
    if key in before {
      assert after.Keys == before.Keys;
    }
    assert |after| == |after.Keys| && |before| == |before.Keys|;
  }

  lemma DistinctKeysStep(first: Member, members: seq<Member>, n: nat)
    requires 0 < n <= |members|
    ensures DistinctKeys(first, members, n)
       <==> DistinctKeys(first, members, n - 1) && members[n - 1].key !in Object(first, members, n - 1)
  {
    ObjectKeys(first, members, n - 1);
  }

  /** The object has one entry per member exactly when all keys differ. */
  lemma {:induction false} ObjectSize(first: Member, members: seq<Member>, n: nat)
    requires n <= |members|
    ensures |Object(first, members, n)| <= n + 1
    ensures |Object(first, members, n)| == n + 1 <==> DistinctKeys(first, members, n)
  {
    if n == 0 {
      assert Object(first, members, 0).Keys == {first.key};
    } else {
      ObjectSize(first, members, n - 1);
      DistinctKeysStep(first, members, n);
      AssignSize(Object(first, members, n - 1), members[n - 1].key, members[n - 1].value);
    }
  }

  lemma {:induction false} ObjectValues(first: Member, members: seq<Member>, n: nat)
    requires n <= |members| && DistinctKeys(first, members, n)
    ensures first.key in Object(first, members, n) && Object(first, members, n)[first.key] == first.value
    ensures forall i :: 0 <= i < n ==>
              members[i].key in Object(first, members, n)
              && Object(first, members, n)[members[i].key] == members[i].value
  {
    if n != 0 {
      ObjectValues(first, members, n - 1);
    }
  }

  // The slaves' object ------------------------------------------------------------

  datatype Listed = Listed(id: Identity, contents: Contents)

  function MemberOf(slave: Listed): Member {
    Member(Key(slave.id), SlaveValue(slave.id.slaveType, slave.contents))
  }

  function MembersOf(slaves: seq<Listed>): (members: seq<Member>)
    ensures |members| == |slaves|
  {
    if slaves == [] then [] else [MemberOf(slaves[0])] + MembersOf(slaves[1..])
  }

  lemma {:induction false} MembersAt(slaves: seq<Listed>, i: nat)
    requires i < |slaves|
    ensures MembersOf(slaves)[i] == MemberOf(slaves[i])
  {
    if i > 0 {
      MembersAt(slaves[1..], i - 1);
    }
  }

  function Timestamp(now: int): Member {
    Member("timestamp", Time(now))
  }

  /** The root object: the time stamp and one assignment per slave. */
  function Json(now: int, slaves: seq<Listed>): map<string, Value> {
    Object(Timestamp(now), MembersOf(slaves), |slaves|)
  }

  /** The object after the time stamp and the first n slaves. */
  function JsonUpTo(now: int, slaves: seq<Listed>, n: int): map<string, Value>
    requires 0 <= n <= |slaves|
  {
    Object(Timestamp(now), MembersOf(slaves), n)
  }

  /** The assignment of slave i. */
  method AddSlave(now: int, slaves: seq<Listed>, i: nat, root: map<string, Value>) returns (root': map<string, Value>)
    requires i < |slaves| && root == JsonUpTo(now, slaves, i)
    ensures root' == JsonUpTo(now, slaves, i + 1)
  {
    MembersAt(slaves, i);
    var slave := slaves[i];
    root' := root[Key(slave.id) := SlaveValue(slave.id.slaveType, slave.contents)];
  }

  method ConvertToJson(now: int, slaves: seq<Listed>) returns (root: map<string, Value>)
    ensures root == Json(now, slaves)
  {
    root := map["timestamp" := Time(now)];
    var i := 0;
    while i < |slaves|
      invariant 0 <= i <= |slaves| && root == JsonUpTo(now, slaves, i)
    {
      root := AddSlave(now, slaves, i, root);
      i := i + 1;
    }
  }

  /** No two slaves share both name and number. */
  ghost predicate DistinctSlaves(slaves: seq<Listed>) {
    forall i, j :: 0 <= i < j < |slaves| ==> !SameSlave(slaves[i], slaves[j])
  }

  lemma {:induction false} MemberKeyIsNotTimestamp(now: int, slaves: seq<Listed>, i: nat)
    requires i < |slaves|
    ensures MembersOf(slaves)[i].key != Timestamp(now).key
  {
    MembersAt(slaves, i);
    KeyIsNotTimestamp(slaves[i].id);
  }

  ghost predicate SameSlave(a: Listed, b: Listed) {
    a.id.name == b.id.name && a.id.number == b.id.number
  }

  lemma {:induction false} MemberKeysAreEqualIff(slaves: seq<Listed>, i: nat, j: nat)
    requires i < |slaves| && j < |slaves|
    ensures MembersOf(slaves)[i].key == MembersOf(slaves)[j].key <==> SameSlave(slaves[i], slaves[j])
  {
    MembersAt(slaves, i);
    MembersAt(slaves, j);
    KeyIsInjective(slaves[i].id, slaves[j].id);
  }

  lemma {:induction false} DistinctSlavesDistinctKeys(now: int, slaves: seq<Listed>)
    ensures DistinctKeys(Timestamp(now), MembersOf(slaves), |slaves|) <==> DistinctSlaves(slaves)
  {
    var first, members := Timestamp(now), MembersOf(slaves);
    forall i | 0 <= i < |slaves|
      ensures members[i].key != first.key
    {
      MemberKeyIsNotTimestamp(now, slaves, i);
    }
    forall i, j | 0 <= i < j < |slaves|
      ensures members[i].key == members[j].key <==> SameSlave(slaves[i], slaves[j])
    {
      MemberKeysAreEqualIff(slaves, i, j);
    }
    KeysAndSlaves(first, members, slaves);
  }

  lemma KeysAndSlaves(first: Member, members: seq<Member>, slaves: seq<Listed>)
    requires |members| == |slaves| && forall i :: 0 <= i < |slaves| ==> members[i].key != first.key
    requires forall i, j :: 0 <= i < j < |slaves| ==>
               (members[i].key == members[j].key <==> SameSlave(slaves[i], slaves[j]))
    ensures DistinctKeys(first, members, |slaves|) <==> DistinctSlaves(slaves)
  {
  }

  /**
   The published object has one entry per slave beside the time stamp exactly when
   no two slaves share name and number, and then each key holds its own slave's data.
   */
  lemma JsonLosesNoSlave(now: int, slaves: seq<Listed>)
    ensures var root := Json(now, slaves);
            && (|root| == |slaves| + 1 <==> DistinctSlaves(slaves))
            && (DistinctSlaves(slaves) ==>
                  && "timestamp" in root && root["timestamp"] == Time(now)
                  && forall i :: 0 <= i < |slaves| ==>
                       Key(slaves[i].id) in root
                       && root[Key(slaves[i].id)] == SlaveValue(slaves[i].id.slaveType, slaves[i].contents))
  {
    var members := MembersOf(slaves);
    ObjectSize(Timestamp(now), members, |slaves|);
    DistinctSlavesDistinctKeys(now, slaves);
    if DistinctSlaves(slaves) {
      ObjectValues(Timestamp(now), members, |slaves|);
      forall i | 0 <= i < |slaves|
        ensures members[i] == MemberOf(slaves[i])
      {
        MembersAt(slaves, i);
      }
    }
  }

  /** Two slaves of one name and number: only the second is published. */
  lemma TwinsShareAnEntry(now: int, id: Identity, a: Contents, b: Contents)
    ensures var root := Json(now, [Listed(id, a), Listed(id, b)]);
            && |root| == 2 && Key(id) in root && root[Key(id)] == SlaveValue(id.slaveType, b)
  {
    var slaves := [Listed(id, a), Listed(id, b)];
    var members, first := MembersOf(slaves), Timestamp(now);
    MembersAt(slaves, 0);
    MembersAt(slaves, 1);
    KeyIsNotTimestamp(id);
    var one := Object(first, members, 1);
    AssignSize(Object(first, members, 0), Key(id), members[0].value);
    AssignSize(one, Key(id), members[1].value);
    ObjectSize(first, members, 0);
    assert Object(first, members, 0).Keys == {"timestamp"};
    assert one == Object(first, members, 0)[Key(id) := members[0].value];
    assert Json(now, slaves) == one[Key(id) := members[1].value];
  }
}
