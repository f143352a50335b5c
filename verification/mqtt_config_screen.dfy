/**
  The MQTT configuration screen: the permission list edited in the add-user and
  edit-permissions dialogs, the add-user guard, and the permission chips shown
  for each user.
*/
module MqttConfigScreen {
  import opened Wrappers
  import opened Text
  import Json
  import Http
  import Acl

  type Permission = Acl.Permission

  /** The entry `addPermission` appends: read-write on a topic still to be typed. */
  const NewEntry: Permission := Acl.Permission("readwrite", "")

  /** `setPermissions([...permissions, { access: 'readwrite', topic: '' }])` */
  function AddPermission(ps: seq<Permission>): (r: seq<Permission>)
    ensures |r| == |ps| + 1
    ensures r[..|ps|] == ps
    ensures r[|ps|].access == "readwrite" && r[|ps|].topic == ""
  {
    ps + [NewEntry]
  }

  /** The two fields of an entry the dialog edits. */
  datatype Field = Access | Topic

  /**
    `updated[index] = { ...updated[index], [field]: value }` for an index the
    dialog renders, that is, one in range.
  */
  function UpdatePermission(ps: seq<Permission>, i: nat, f: Field, v: string): (r: seq<Permission>)
    requires i < |ps|
    ensures |r| == |ps|
    ensures forall j :: 0 <= j < |ps| && j != i ==> r[j] == ps[j]
    ensures f == Access ==> r[i].access == v && r[i].topic == ps[i].topic
    ensures f == Topic ==> r[i].topic == v && r[i].access == ps[i].access
  {
    var e := ps[i];
    ps[i := if f == Access then e.(access := v) else e.(topic := v)]
  }

  /** `permissions.filter((_, i) => i !== index)`, for any number the caller passes. */
  function RemovePermission(ps: seq<Permission>, index: int): (r: seq<Permission>)
    ensures 0 <= index < |ps| ==> r == ps[..index] + ps[index + 1..]
    ensures !(0 <= index < |ps|) ==> r == ps
  {
    FilterIndex(ps, index, 0)
  }

  /** The filter over `ps`, whose first item sits at position `offset` of the whole list. */
  function FilterIndex(ps: seq<Permission>, index: int, offset: nat): (r: seq<Permission>)
    ensures offset <= index < offset + |ps| ==> r == ps[..index - offset] + ps[index - offset + 1..]
    ensures !(offset <= index < offset + |ps|) ==> r == ps
    decreases |ps|
  {
    if |ps| == 0 then []
    else
      var rest := FilterIndex(ps[1..], index, offset + 1);
      if offset == index then
        rest
      else
        assert [ps[0]] + ps[1..] == ps;
        if offset + 1 <= index < offset + |ps| then
          assert [ps[0]] + (ps[1..][..index - offset - 1] + ps[1..][index - offset..]) == ps[..index - offset] + ps[index - offset + 1..];
          [ps[0]] + rest
        else
          [ps[0]] + rest
  }

  /** Removing the entry just added gives back the list as it was. */
  lemma RemoveAfterAdd(ps: seq<Permission>)
    ensures RemovePermission(AddPermission(ps), |ps|) == ps
  {
    assert AddPermission(ps)[..|ps|] == ps;
  }

  /** Writing a field twice keeps the second value only. */
  lemma UpdateTwice(ps: seq<Permission>, i: nat, f: Field, v: string, w: string)
    requires i < |ps|
    ensures UpdatePermission(UpdatePermission(ps, i, f, v), i, f, w) == UpdatePermission(ps, i, f, w)
  {
  }

  /** Writing back the value a field already holds changes nothing. */
  lemma UpdateSameValue(ps: seq<Permission>, i: nat, f: Field)
    requires i < |ps|
    ensures UpdatePermission(ps, i, f, if f == Access then ps[i].access else ps[i].topic) == ps
  {
  }

  /** `if (!newUsername || !newPassword)`: the dialog sends nothing unless both are typed. */
  predicate AddUserAllowed(username: string, password: string) {
    username != [] && password != []
  }

  /** The body `handleAddUser` posts. */
  function AddUserBody(username: string, password: string, ps: seq<Permission>): Json.Object {
    map["username" := Json.JStr(username), "password" := Json.JStr(password), "permissions" := Encode(ps)]
  }

  function EncodeOne(p: Permission): Json.Json {
    Json.JObj(map["access" := Json.JStr(p.access), "topic" := Json.JStr(p.topic)])
  }

  function Encode(ps: seq<Permission>): (j: Json.Json)
    ensures j.JArr? && |j.items| == |ps|
  {
    Json.JArr(seq(|ps|, i requires 0 <= i < |ps| => EncodeOne(ps[i])))
  }

  /** The permissions the server decodes from the posted list are the ones the dialog held. */
  lemma EncodeDecodes(ps: seq<Permission>)
    ensures Acl.DecodePerms(Encode(ps)) == Some(ps)
  {
    var items := Encode(ps).items;
    forall i | 0 <= i < |items| ensures Acl.DecodePerm(items[i]) == Some(ps[i]) {
      assert items[i] == EncodeOne(ps[i]);
      EncodeOneDecodes(ps[i]);
    }
    var r := Acl.DecodeAll(items);
    assert r.Some?;
    assert r.value == ps;
  }

  lemma EncodeOneDecodes(p: Permission)
    ensures Acl.DecodePerm(EncodeOne(p)) == Some(p)
  {
    var m := EncodeOne(p).fields;
    assert m["access"] == Json.JStr(p.access);
    assert m["topic"] == Json.JStr(p.topic);
  }

  /**
    The dialog's guard and the server's 400 agree: a request the dialog lets
    through is never refused for a missing username or password, and the
    requests the dialog holds back are exactly those the server would refuse.
  */
  lemma GuardMatchesServer(username: string, password: string, ps: seq<Permission>, passwd: Acl.Tool, acl: Acl.AclFile)
    ensures var r := Acl.CreateUser(Some(AddUserBody(username, password, ps)), passwd, acl);
      (r.Failure? && r.code == 400) <==> !AddUserAllowed(username, password)
  {
    var body := AddUserBody(username, password, ps);
    assert Json.Get(body, "username") == Json.JStr(username);
    assert Json.Get(body, "password") == Json.JStr(password);
    assert |body| > 0 by {
      assert "username" in body;
    }
  }

  /**
    A new user posted with the dialog's untouched entry reaches the ACL as the
    line `topic readwrite ` and is read back without any permission.
  */
  lemma UntouchedEntryLost()
    ensures Acl.Classify(Acl.PermText(NewEntry)) == Acl.OtherLine
  {
    assert Acl.IsWord("readwrite") by {
      var w := "readwrite";
      assert w[0] == 'r' && w[1] == 'e' && w[2] == 'a' && w[3] == 'd' && w[4] == 'w';
      assert w[5] == 'r' && w[6] == 'i' && w[7] == 't' && w[8] == 'e';
    }
    Acl.EmptyTopicDropped("readwrite");
  }

  /** What the permissions cell of a user's row shows. */
  datatype Cell =
    | NoPermissions
    | Chips(labels: seq<string>, more: Option<nat>)

  /** `${perm.access}: ${perm.topic}` */
  function ChipLabel(p: Permission): string {
    p.access + ": " + p.topic
  }

  /**
    The first two permissions as chips, then `+<n> more` for the rest when
    there are more than two; "No permissions" for an empty list.
  */
  function PermissionCell(ps: seq<Permission>): (c: Cell)
    ensures c.NoPermissions? <==> |ps| == 0
    ensures c.Chips? ==> |c.labels| == (if |ps| < 2 then |ps| else 2)
    ensures c.Chips? ==> forall i :: 0 <= i < |c.labels| ==> c.labels[i] == ChipLabel(ps[i])
    ensures c.Chips? ==> (c.more.Some? <==> |ps| > 2)
    ensures c.Chips? && c.more.Some? ==> c.more.value == |ps| - 2
  {
    if |ps| == 0 then NoPermissions
    else
      var shown := if |ps| < 2 then ps else ps[..2];
      Chips(seq(|shown|, i requires 0 <= i < |shown| => ChipLabel(shown[i])),
            if |ps| > 2 then Some(|ps| - 2) else None)
  }

  /** Every permission is accounted for: the chips shown plus the `more` count give the list's length. */
  lemma CellCountsAll(ps: seq<Permission>)
    requires |ps| > 0
    ensures var c := PermissionCell(ps); |c.labels| + c.more.GetOr(0) == |ps|
  {
  }
}
