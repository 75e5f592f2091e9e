/** The account operations on /etc/passwd (user/uauth.c): looking records up, adding one, and
    changing one in place. */
module Accounts {
  import opened Options
  import opened CStrings
  import opened Passwd

  /** Overrun is a lookup that meets a line with too few fields and reads on behind its end. */
  datatype Code = Success | NotFound | Reserved | NoPerms | Unknown | Overrun

  /** What a record is looked up by. */
  datatype Key = Name(name: string) | Uid(uid: nat)

  datatype Lookup = Found(user: User) | Missing | Malformed

  // ----- what a file means

  /** The records that a reader of the file sees. */
  function Read(data: string): (recs: seq<Option<User>>)
    ensures |recs| == |ReadLines(data)|
  {
    var lines := ReadLines(data);
    seq(|lines|, k requires 0 <= k < |lines| => Record(lines[k]))
  }

  predicate Matches(u: User, key: Key) {
    match key
    case Name(name) => u.username == name
    case Uid(uid) => u.uid == uid
  }

  /** Where a lookup stops. */
  function First(recs: seq<Option<User>>, key: Key): (k: nat)
    ensures k <= |recs|
    ensures forall j | 0 <= j < k :: recs[j].Some? && !Matches(recs[j].value, key)
    ensures k < |recs| ==> recs[k].None? || Matches(recs[k].value, key)
  {
    if recs == [] || recs[0].None? || Matches(recs[0].value, key) then 0 else 1 + First(recs[1..], key)
  }

  lemma FirstIs(recs: seq<Option<User>>, key: Key, k: nat)
    requires k <= |recs| && forall j | 0 <= j < k :: recs[j].Some? && !Matches(recs[j].value, key)
    requires k < |recs| ==> recs[k].None? || Matches(recs[k].value, key)
    ensures First(recs, key) == k
  {
    var f := First(recs, key);
    assert !(f < k) && !(k < f);
  }

  /** No record has the key, and all are well formed. */
  predicate Unused(recs: seq<Option<User>>, key: Key) {
    First(recs, key) == |recs|
  }

  /** A lookup finds a record with the key. */
  predicate Taken(recs: seq<Option<User>>, key: Key) {
    var k := First(recs, key);
    k < |recs| && recs[k].Some?
  }

  /** No two accounts share a name or a uid. */
  ghost predicate Distinct(recs: seq<Option<User>>) {
    && (forall i | 0 <= i < |recs| :: recs[i].Some?)
    && forall i, j | 0 <= i < j < |recs| ::
         recs[i].value.username != recs[j].value.username && recs[i].value.uid != recs[j].value.uid
  }

  /** The file is made up of lines as writeuser composes them. */
  ghost predicate WellFormed(data: string) {
    var lines := ReadLines(data);
    && lines != [] && data == Join(lines)
    && forall k | 0 <= k < |lines| :: Record(lines[k]).Some? && lines[k] == Encode(Record(lines[k]).value)
  }

  /** A field that can be told from its neighbours. */
  predicate Clean(s: string) {
    SEP !in s && NL !in s
  }

  predicate CleanUser(u: User) {
    Clean(u.username) && Clean(PasswordText(u)) && Clean(u.fullname) && Clean(u.homedir)
  }

  /** An empty password reads as none. */
  function Normal(u: User): (v: User) {
    if u.password == Some([]) then u.(password := None) else u
  }

  /** A line gives back the record it was composed from, if and only if the fields are clean. */
  lemma CleanRecord(u: User)
    requires Terminated(u)
    ensures CleanUser(u) ==> NL !in Encode(u) && Record(Encode(u)) == Some(Normal(u))
    ensures Encode(u) != [] && Encode(Normal(u)) == Encode(u)
  {
    hide Split, Decode;
    EncodeParts(u);
    EncodeTerminated(u);
    RoundTrip(Normal(u));
    NoNewline(u.uid);
    NoNewline(u.gid);
  }

  /** Every record that is read has clean fields. */
  lemma ReadClean(data: string, k: nat)
    requires k < |Read(data)|
    ensures Read(data)[k].Some? ==>
      var u := Read(data)[k].value;
      CleanUser(u) && Terminated(u) && u.password != Some([])
  {
    hide ReadLines, Split, Leading, Value, Text;
    var text := Text(ReadLines(data)[k]);
    SplitClean(text);
    SplitPart(text, NL);
    SplitPart(text, NUL);
    var fs := Split(text);
    assert forall f <- fs :: Clean(f) && NUL !in f;
    if Record(ReadLines(data)[k]).Some? {
      assert fs[0] in fs && fs[1] in fs && fs[4] in fs && fs[5] in fs;
    }
  }

  lemma {:induction false} SplitPart(line: string, c: char)
    requires c !in line
    ensures forall f <- Split(line) :: c !in f
  {
    if line != [] {
      assert c !in line[1..];
      SplitPart(line[1..], c);
      assert line[0] in line;
    }
  }

  // ----- writing

  /** The file with another line at its end. */
  lemma JoinMore(lines: seq<string>, line: string)
    requires lines != []
    ensures Join(lines + [line]) == Join(lines) + [NL] + line
  {
    PostMore(lines, line, 1);
    assert lines[0] + (Post(lines, 1) + ([NL] + line)) == lines[0] + Post(lines, 1) + [NL] + line;
  }

  /** A well-formed file with the line of `u` for its line `k`, or behind the others. */
  function Placed(data: string, k: nat, u: User): (lines: seq<string>)
    requires k <= |ReadLines(data)|
  {
    var lines := ReadLines(data);
    if k < |lines| then lines[k := Encode(u)] else lines + [Encode(u)]
  }

  function PlacedRecord(data: string, k: nat, u: User): (recs: seq<Option<User>>)
    requires k <= |Read(data)|
  {
    if k < |Read(data)| then Read(data)[k := Some(u)] else Read(data) + [Some(u)]
  }

  /** After a record is written into a well-formed file, the file reads as intended exactly when
      no field of it has a colon or a newline. */
  lemma ReadBack(data: string, k: nat, u: User)
    requires WellFormed(data) && k <= |Read(data)| && Terminated(u)
    ensures Read(Join(Placed(data, k, u))) == PlacedRecord(data, k, Normal(u)) <==> CleanUser(u)
    ensures CleanUser(u) ==> WellFormed(Join(Placed(data, k, u)))
  {
    hide ReadLines, Record, Join, Encode, CleanUser;
    var lines := Placed(data, k, u);
    var data' := Join(lines);
    if CleanUser(u) {
      forall i | 0 <= i < |lines|
        ensures NL !in lines[i] && lines[i] != [] && Record(lines[i]) == PlacedRecord(data, k, Normal(u))[i]
        ensures Record(lines[i]).Some? && lines[i] == Encode(Record(lines[i]).value)
      {
        CleanRecord(u);
        if i != k {
          ReadClean(data, i);
          CleanRecord(Record(ReadLines(data)[i]).value);
        }
      }
      ReadJoin(lines);
    }
    if Read(data') == PlacedRecord(data, k, Normal(u)) {
      assert Read(data')[k] == Some(Normal(u));
      ReadClean(data', k);
      NormalClean(u);
    }
  }

  lemma NormalClean(u: User)
    ensures CleanUser(Normal(u)) <==> CleanUser(u)
  {
  }

  /** Distinct keys stay distinct when the keys written are unused elsewhere. */
  lemma StaysDistinct(data: string, k: nat, u: User)
    requires Distinct(Read(data)) && k <= |Read(data)|
    requires (k < |Read(data)| && Read(data)[k].value.username == u.username) || Unused(Read(data), Name(u.username))
    requires (k < |Read(data)| && Read(data)[k].value.uid == u.uid) || Unused(Read(data), Uid(u.uid))
    ensures Distinct(PlacedRecord(data, k, Normal(u)))
  {
    hide Read, First;
    var recs := Read(data);
    forall j | 0 <= j < |recs| && j != k
      ensures recs[j].value.username != u.username && recs[j].value.uid != u.uid
    {
      var f, g := First(recs, Name(u.username)), First(recs, Uid(u.uid));
      assert j < f ==> !Matches(recs[j].value, Name(u.username));
      assert j < g ==> !Matches(recs[j].value, Uid(u.uid));
    }
  }

  // ----- lookups

  function Looked(recs: seq<Option<User>>, k: nat): (r: Lookup)
    requires k <= |recs|
  {
    if k == |recs| then Missing else if recs[k].None? then Malformed else Found(recs[k].value)
  }

  /** One more line of a lookup. */
  lemma NextRecord(data: string, k: nat, offset: nat, line: Option<string>, next: nat)
    requires var lines := ReadLines(data);
             k <= |lines| && offset == |Pre(lines, k)| && Rest(data, offset) == lines[k..]
    requires line.None? <==> offset >= |data|
    requires line.Some? ==> next == offset + |line.value| + 1 && Rest(data, offset) == [line.value] + Rest(data, next)
    ensures line.None? ==> k == |Read(data)|
    ensures line.Some? ==>
      && k < |Read(data)| && Read(data)[k] == Record(Text(line.value))
      && next == |Pre(ReadLines(data), k + 1)| && Rest(data, next) == ReadLines(data)[k + 1..]
  {
    hide ReadLines, Split, Decode;
    var lines := ReadLines(data);
    if line.Some? {
      assert lines[k] == lines[k..][0] && lines[k + 1..] == lines[k..][1..];
      assert Text(Text(line.value)) == Text(line.value);
    }
  }

  lemma FromStart(data: string)
    ensures Rest(data, 0) == ReadLines(data)[0..] && |Pre(ReadLines(data), 0)| == 0
  {
    assert data[0..] == data;
  }

  /** finduserbyname: the first record with the name, and the offset after its line. */
  method FindByName(data: string, name: string) returns (r: Lookup, offset: nat)
    ensures r == Looked(Read(data), First(Read(data), Name(name)))
    ensures r.Found? ==> offset == |Pre(ReadLines(data), First(Read(data), Name(name)) + 1)|
  {
    hide ReadLines, Read, Pre, Rest, Record;
    offset := 0;
    ghost var k := 0;
    FromStart(data);
    while true
      invariant k <= |Read(data)| && offset == |Pre(ReadLines(data), k)| && Rest(data, offset) == ReadLines(data)[k..]
      invariant forall j | 0 <= j < k :: Read(data)[j].Some? && !Matches(Read(data)[j].value, Name(name))
      decreases |Read(data)| - k
    {
      var line, next := GetLine(data, offset);
      NextRecord(data, k, offset, line, next);
      if line.None? {
        FirstIs(Read(data), Name(name), k);
        return Missing, offset;
      }
      var u := ParseUser(Text(line.value));
      offset := next;
      if u.None? {
        FirstIs(Read(data), Name(name), k);
        return Malformed, offset;
      }
      if u.value.username == name {
        FirstIs(Read(data), Name(name), k);
        return Found(u.value), offset;
      }
      k := k + 1;
    }
  }

  /** finduserbyuid. */
  method FindByUid(data: string, uid: nat) returns (r: Lookup, offset: nat)
    ensures r == Looked(Read(data), First(Read(data), Uid(uid)))
    ensures r.Found? ==> offset == |Pre(ReadLines(data), First(Read(data), Uid(uid)) + 1)|
  {
    hide ReadLines, Read, Pre, Rest, Record;
    offset := 0;
    ghost var k := 0;
    FromStart(data);
    while true
      invariant k <= |Read(data)| && offset == |Pre(ReadLines(data), k)| && Rest(data, offset) == ReadLines(data)[k..]
      invariant forall j | 0 <= j < k :: Read(data)[j].Some? && !Matches(Read(data)[j].value, Uid(uid))
      decreases |Read(data)| - k
    {
      var line, next := GetLine(data, offset);
      NextRecord(data, k, offset, line, next);
      if line.None? {
        FirstIs(Read(data), Uid(uid), k);
        return Missing, offset;
      }
      var u := ParseUser(Text(line.value));
      offset := next;
      if u.None? {
        FirstIs(Read(data), Uid(uid), k);
        return Malformed, offset;
      }
      if u.value.uid == uid {
        FirstIs(Read(data), Uid(uid), k);
        return Found(u.value), offset;
      }
      k := k + 1;
    }
  }

  // ----- operations

  function Edited(u: User, username: Option<CString>, uid: nat, fullname: Option<CString>,
                  homedir: Option<CString>): (v: User) {
    User(if username.Some? then username.value else u.username, u.password, if uid != 0 then uid else u.uid, u.gid,
         if fullname.Some? then fullname.value else u.fullname, if homedir.Some? then homedir.value else u.homedir)
  }

  predicate OptionalClean(s: Option<string>) {
    s.Some? ==> Clean(s.value)
  }

  lemma EditedClean(u: User, username: Option<CString>, uid: nat, fullname: Option<CString>, homedir: Option<CString>)
    requires CleanUser(u) && Terminated(u) && u.password != Some([])
    ensures var v := Edited(u, username, uid, fullname, homedir);
            && Terminated(v) && Normal(v) == v
            && (CleanUser(v) <==> OptionalClean(username) && OptionalClean(fullname) && OptionalClean(homedir))
  {
  }

  function MaxUid(recs: seq<Option<User>>): (n: nat) {
    if recs == [] then 0
    else
      var m := MaxUid(recs[1..]);
      if recs[0].Some? && recs[0].value.uid > m then recs[0].value.uid else m
  }

  lemma {:induction false} BelowMax(recs: seq<Option<User>>, k: nat)
    requires k < |recs| && recs[k].Some?
    ensures recs[k].value.uid <= MaxUid(recs)
  {
    if k > 0 {
      assert recs[1..][k - 1] == recs[k];
      BelowMax(recs[1..], k - 1);
    }
  }

  function Root(): (u: User) {
    User("root", Some("password"), 0, 0, "Superuser", "/home/root")
  }

  /** cfg/passwd. */
  function InstalledFile(): (s: string) {
    "root:password:0:0:Superuser:/home/root"
  }

  lemma RootEncoded()
    ensures Encode(Root()) == InstalledFile()
  {
    hide Encode;
    EncodeParts(Root());
    DigitsOfZero();
    RootFields([] + "root" + [SEP] + "password" + [SEP] + "0" + [SEP] + "0" + [SEP]);
  }

  lemma RootFields(s: string)
    requires s == [] + "root" + [SEP] + "password" + [SEP] + "0" + [SEP] + "0" + [SEP]
    ensures s + "Superuser" + [SEP] + "/home/root" == InstalledFile()
  {
    assert s == "root:password:0:0:";
  }

  lemma RootClean()
    ensures CleanUser(Root()) && Terminated(Root())
  {
  }

  /** A file of the lines of clean records reads as these records. */
  lemma Composed(lines: seq<string>, users: seq<User>)
    requires lines != [] && |lines| == |users|
    requires forall k | 0 <= k < |users| ::
               CleanUser(users[k]) && Terminated(users[k]) && lines[k] == Encode(users[k])
    ensures ReadLines(Join(lines)) == lines && WellFormed(Join(lines))
    ensures forall k | 0 <= k < |users| :: Read(Join(lines))[k] == Some(Normal(users[k]))
  {
    hide ReadLines, Record, Join, Encode, CleanUser, Terminated;
    forall k | 0 <= k < |lines|
      ensures NL !in lines[k] && lines[k] != [] && Record(lines[k]) == Some(Normal(users[k]))
      ensures lines[k] == Encode(Normal(users[k]))
    {
      CleanRecord(users[k]);
    }
    ReadJoin(lines);
  }

  /** The installed file is the line of one record. */
  lemma Installed()
    ensures WellFormed(InstalledFile()) && Read(InstalledFile()) == [Some(Root())]
  {
    hide Encode, CleanUser, WellFormed, Read, InstalledFile;
    var data := InstalledFile();
    RootEncoded();
    RootClean();
    JoinOne(data);
    Composed([data], [Root()]);
  }

  lemma JoinOne(line: string)
    ensures Join([line]) == line
  {
    assert Post([line], 1) == [];
  }

  method Edit(u: User, username: Option<CString>, uid: nat, fullname: Option<CString>, homedir: Option<CString>)
    returns (v: User)
    ensures v == Edited(u, username, uid, fullname, homedir)
  {
    v := u;
    if username.Some? {
      v := v.(username := username.value);
    }
    if uid != 0 {
      v := v.(uid := uid);
    }
    if fullname.Some? {
      v := v.(fullname := fullname.value);
    }
    if homedir.Some? {
      v := v.(homedir := homedir.value);
    }
  }

  class Accounts {
    /** The contents of /etc/passwd. */
    var data: string
    var availableuid: nat

    /** The file is one that the operations wrote, and accounts can be told apart. */
    ghost predicate Valid()
      reads this
    {
      WellFormed(data) && Distinct(Read(data))
    }

    /** The file as it is installed: the superuser alone. */
    constructor ()
      ensures Valid() && data == InstalledFile() && Read(data) == [Some(Root())] && availableuid == 1002
    {
      hide WellFormed, Read, InstalledFile, Root;
      Installed();
      data := InstalledFile();
      availableuid := 1002;
    }

    /** addline, for a record. */
    method Append(u: User)
      modifies this`data
      ensures data == old(data) + [NL] + Encode(u)
    {
      hide Encode;
      var line := Compose(u);
      data := data + [NL] + line[..];
    }

    /** changeline, for record `k`, whose line ends before `offset`. */
    method Replace(u: User, offset: nat, oldlength: nat, behind: nat -> char, ghost k: nat)
      requires k < |Read(data)| && Read(data)[k].Some? && oldlength == |Encode(Read(data)[k].value)|
      requires offset == |Pre(ReadLines(data), k + 1)| <= |data| + 1 && offset + |Encode(u)| > oldlength
      modifies this`data
      ensures Rewritten(old(data), k, u, behind) == Some(data)
    {
      hide Pre, Encode, TempFile, ReadLines, Read;
      var line := Compose(u);
      LongEnough(data, Encode(u), offset);
      var r, _ := ChangeLine(data, line[..], offset, oldlength, [], behind);
      data := r.value;
    }

    /** adduser. The results of opening the file and of the two group updates are parameters. */
    method AddUser(username: CString, uid: nat, fullname: CString, homedir: CString,
                   opens: bool, groupAdded: bool, memberAdded: bool)
      returns (code: Code, ghost id: nat)
      modifies this
      ensures var recs := old(Read(data));
              var named := Unused(recs, Name(username));
              var free := named && (uid == 0 || Unused(recs, Uid(uid)));
              && (code == NoPerms <==> !opens)
              && (code == Overrun <==> opens && !named && !Taken(recs, Name(username)))
              && (code == Reserved <==>
                    opens && (Taken(recs, Name(username)) || (named && (!free || !groupAdded))))
              && (code == Unknown <==> opens && free && groupAdded && !memberAdded)
              && (code == Success <==> opens && free && groupAdded && memberAdded)
      ensures code == Overrun ==> !WellFormed(data)
      ensures code != Success ==> data == old(data)
      // the next free uid is taken even if the group cannot be added
      ensures if opens && Unused(old(Read(data)), Name(username)) && uid == 0
              then
                && old(availableuid) < availableuid && Unused(old(Read(data)), Uid(availableuid - 1))
                && forall v | old(availableuid) <= v < availableuid - 1 :: Taken(old(Read(data)), Uid(v))
              else availableuid == old(availableuid)
      ensures code == Success ==>
        && id == (if uid != 0 then uid else availableuid - 1)
        && Unused(old(Read(data)), Uid(id))
        && data == old(data) + [NL] + Encode(User(username, None, id, id, fullname, homedir))
      ensures code == Success && old(WellFormed(data)) ==>
        var clean := Clean(username) && Clean(fullname) && Clean(homedir);
        && (Read(data) == old(Read(data)) + [Some(User(username, None, id, id, fullname, homedir))] <==> clean)
        && (clean ==> WellFormed(data) && (old(Valid()) ==> Valid()))
    {
      hide WellFormed, Read, Unused, Encode, Distinct, Join, Pre, ReadLines, Clean;
      ghost var was := data;
      id := 0;
      if !opens {
        return NoPerms, id;
      }
      var taken, _ := FindByName(data, username);
      NoneMissing(data, First(Read(was), Name(username)));
      UnusedIs(Read(was), Name(username));
      if taken.Found? {
        return Reserved, id;
      }
      if taken.Malformed? {
        return Overrun, id;
      }
      var newuid := uid;
      if newuid == 0 {
        while true
          invariant data == was && availableuid >= old(availableuid)
          invariant forall v | old(availableuid) <= v < availableuid :: Taken(Read(was), Uid(v))
          decreases MaxUid(Read(was)) + 1 - availableuid
        {
          var found, _ := FindByUid(data, availableuid);
          UnusedIs(Read(was), Uid(availableuid));
          if !found.Found? {
            break;
          }
          BelowMax(Read(was), First(Read(was), Uid(availableuid)));
          availableuid := availableuid + 1;
        }
        newuid := availableuid;
        availableuid := availableuid + 1;
      } else {
        var found, _ := FindByUid(data, newuid);
        UnusedIs(Read(was), Uid(newuid));
        if found.Found? {
          return Reserved, id;
        }
      }
      if !groupAdded {
        return Reserved, id;
      }
      if !memberAdded {
        return Unknown, id;
      }
      id := newuid;
      Append(User(username, None, newuid, newuid, fullname, homedir));
      code := Success;
      AppendedRead(was, User(username, None, newuid, newuid, fullname, homedir));
    }

    /** changepass, called by the user `caller`. */
    method ChangePass(username: string, oldpwd: string, newpwd: CString, caller: nat, opens: bool, behind: nat -> char)
      returns (code: Code, ghost k: nat)
      modifies this`data
      ensures k == First(old(Read(data)), Name(username))
      // without a record of that name
      ensures code == NoPerms || code == NotFound || code == Overrun || code == Success
      ensures !opens ==> code == NoPerms
      ensures opens ==>
        && (code == NotFound <==> Looked(old(Read(data)), k).Missing?)
        && (code == Overrun <==> Looked(old(Read(data)), k).Malformed?)
      // with one, the superuser succeeds, and nobody else but the owner, who must know the password
      ensures opens && Looked(old(Read(data)), k).Found? ==>
        var u := old(Read(data))[k].value;
        && (caller == 0 ==> code == Success)
        && (caller != 0 && u.uid != caller ==> code == NoPerms)
        && (caller != 0 && u.uid == caller && u.password == None ==> code == Success)
        && (caller != 0 && u.uid == caller && u.password.Some? ==>
              (code == Success <==> u.password.value == oldpwd) && (code == NoPerms <==> u.password.value != oldpwd))
      ensures code != Success ==> data == old(data)
      ensures code == Success ==>
        Rewritten(old(data), k, old(Read(data))[k].value.(password := Some(newpwd)), behind) == Some(data)
      ensures code == Success && old(WellFormed(data)) ==>
        var u := old(Read(data))[k].value;
        && data == Join(Placed(old(data), k, u.(password := Some(newpwd))))
        && (Read(data) == old(Read(data))[k := Some(u.(password := if newpwd == [] then None else Some(newpwd)))]
            <==> Clean(newpwd))
        && (Clean(newpwd) ==> WellFormed(data) && (old(Valid()) ==> Valid()))
    {
      hide WellFormed, Read, Encode, Distinct, Join, Pre, Clean, ReadLines, Placed, Rewritten;
      k := First(Read(data), Name(username));
      if !opens {
        return NoPerms, k;
      }
      var r, offset := FindByName(data, username);
      if r.Missing? {
        return NotFound, k;
      }
      if r.Malformed? {
        return Overrun, k;
      }
      var u := r.user;
      if caller != 0 && (u.uid != caller || (u.password.Some? && u.password.value != oldpwd)) {
        return NoPerms, k;
      }
      var oldlength := GetUserLength(u);
      u := u.(password := Some(newpwd));
      ReadClean(data, k);
      EnoughLeft(data, k, u);
      PlacedRead(data, k, u, behind);
      Replace(u, offset, oldlength, behind, k);
      code := Success;
    }

    /** changeuser: what is given replaces what was there. */
    method ChangeUser(username: string, newusername: Option<CString>, uid: nat, fullname: Option<CString>,
                      homedir: Option<CString>, opens: bool, behind: nat -> char)
      returns (code: Code, ghost k: nat)
      modifies this`data
      ensures k == First(old(Read(data)), Name(username))
      ensures var recs := old(Read(data));
              var named := newusername.Some? ==> Unused(recs, Name(newusername.value));
              var unused := named && (uid != 0 ==> Unused(recs, Uid(uid)));
              && (code == NoPerms <==> !opens)
              && (code == Reserved <==>
                  && opens
                  && if !named then Taken(recs, Name(newusername.value)) else uid != 0 && Taken(recs, Uid(uid)))
              && (code == NotFound <==> opens && unused && Looked(recs, k).Missing?)
              && (code == Success <==> opens && unused && Looked(recs, k).Found?) && code != Unknown
      ensures code != Success ==> data == old(data)
      ensures code == Success ==>
        Rewritten(old(data), k, Edited(old(Read(data))[k].value, newusername, uid, fullname, homedir), behind) ==
          Some(data)
      ensures code == Success && old(WellFormed(data)) ==>
        var u := Edited(old(Read(data))[k].value, newusername, uid, fullname, homedir);
        var clean := OptionalClean(newusername) && OptionalClean(fullname) && OptionalClean(homedir);
        && data == Join(Placed(old(data), k, u))
        && (Read(data) == old(Read(data))[k := Some(u)] <==> clean)
        && (clean ==> WellFormed(data) && (old(Valid()) ==> Valid()))
      // field by field
      ensures code == Success ==>
        var u := old(Read(data))[k].value;
        var v := Edited(u, newusername, uid, fullname, homedir);
        && v.username == (if newusername == None then u.username else newusername.value)
        && v.uid == (if uid == 0 then u.uid else uid) && v.gid == u.gid && v.password == u.password
        && v.fullname == (if fullname == None then u.fullname else fullname.value)
        && v.homedir == (if homedir == None then u.homedir else homedir.value)
    {
      hide WellFormed, Read, Encode, Distinct, Join, Pre, Unused, ReadLines, Placed, Rewritten, First, CleanUser,
           Normal, Terminated, OptionalClean;
      ghost var was := data;
      k := First(Read(data), Name(username));
      if !opens {
        return NoPerms, k;
      }
      if newusername.Some? {
        var taken, _ := FindByName(data, newusername.value);
        UnusedIs(Read(was), Name(newusername.value));
        if taken.Found? {
          return Reserved, k;
        }
        if taken.Malformed? {
          return Overrun, k;
        }
      }
      if uid != 0 {
        var taken, _ := FindByUid(data, uid);
        UnusedIs(Read(was), Uid(uid));
        if taken.Found? {
          return Reserved, k;
        }
        if taken.Malformed? {
          return Overrun, k;
        }
      }
      var r, offset := FindByName(data, username);
      if r.Missing? {
        return NotFound, k;
      }
      if r.Malformed? {
        return Overrun, k;
      }
      var oldlength := GetUserLength(r.user);
      var u := Edit(r.user, newusername, uid, fullname, homedir);
      ReadClean(data, k);
      EditedClean(r.user, newusername, uid, fullname, homedir);
      EnoughLeft(data, k, u);
      PlacedRead(data, k, u, behind);
      Replace(u, offset, oldlength, behind, k);
      code := Success;
    }
  }

  /** Any file in which the line of record `k` has been rewritten for `v`. */
  ghost function Rewritten(data: string, k: nat, v: User, behind: nat -> char): (r: Option<string>)
    requires k < |Read(data)| && Read(data)[k].Some?
  {
    PreWithin(data, k + 1);
    ChangedFile(data, Encode(v), |Pre(ReadLines(data), k + 1)|, |Encode(Read(data)[k].value)|, [], behind)
  }

  lemma {:induction false} PreWithin(data: string, k: nat)
    requires k <= |ReadLines(data)|
    ensures |Pre(ReadLines(data), k)| <= |data| + 1
  {
    if k > 0 {
      var f := FirstLine(data);
      PreShift(ReadLines(data), k);
      if |f| < |data| {
        PreWithin(data[|f| + 1..], k - 1);
        assert ReadLines(data)[1..] == ReadLines(data[|f| + 1..]);
      } else {
        assert ReadLines(data)[1..] == [];
      }
    }
  }

  lemma {:induction false} PreShift(lines: seq<string>, k: nat)
    requires 0 < k <= |lines|
    ensures |Pre(lines, k)| == |lines[0]| + 1 + |Pre(lines[1..], k - 1)|
  {
    if k > 1 {
      PreShift(lines, k - 1);
    }
  }

  lemma LongEnough(file: string, line: string, offset: nat)
    ensures |TempFile(file, line, offset, [])| >= |line|
  {
  }

  // ----- a rewritten line never ends before the beginning

  function Total(fs: seq<string>): (n: nat) {
    if fs == [] then 0 else |fs[0]| + Total(fs[1..])
  }

  lemma {:induction false} SplitTotal(s: string)
    ensures Total(Split(s)) <= |s|
  {
    if s != [] {
      SplitTotal(s[1..]);
    }
  }

  lemma ThreeFields(fs: seq<string>)
    requires |fs| >= 3
    ensures Total(fs) == |fs[0]| + |fs[1]| + |fs[2]| + Total(fs[3..])
  {
    assert fs[1..][1..] == fs[2..] && fs[2..][1..] == fs[3..];
    assert Total(fs[1..]) == |fs[1]| + Total(fs[2..]);
    assert Total(fs[2..]) == |fs[2]| + Total(fs[3..]);
  }

  lemma SixFields(fs: seq<string>)
    requires |fs| >= 6
    ensures |fs[0]| + |fs[1]| + |fs[2]| + |fs[4]| + |fs[5]| <= Total(fs)
  {
    hide Total;
    ThreeFields(fs);
    ThreeFields(fs[3..]);
  }

  /** A number has no more digits than the text it was read from, or one. */
  lemma {:induction false} FewDigits(s: string)
    requires forall i | 0 <= i < |s| :: IsDigit(s[i])
    ensures |Digits(Value(s))| <= if s == [] then 1 else |s|
  {
    if s != [] {
      FewDigits(s[..|s| - 1]);
      assert IsDigit(s[|s| - 1]);
      var a, d := Value(s[..|s| - 1]), DigitValue(s[|s| - 1]);
      assert (10 * a + d) / 10 == a;
    }
  }

  /** Whatever fields take the place of those of the record, the file does not end before its
      beginning. */
  lemma EnoughLeft(data: string, k: nat, v: User)
    requires k < |Read(data)| && Read(data)[k].Some? && v.gid == Read(data)[k].value.gid
    ensures var end := |Pre(ReadLines(data), k + 1)|;
            end <= |data| + 1 && end + |Encode(v)| > |Encode(Read(data)[k].value)|
  {
    hide ReadLines, Split, Leading, Value, Text, Total, Digits, Encode;
    var u, text := Read(data)[k].value, Text(ReadLines(data)[k]);
    var fs := Split(text);
    EncodeParts(u);
    EncodeParts(v);
    SplitTotal(text);
    SixFields(fs);
    FewDigits(Leading(fs[2]));
    PreWithin(data, k + 1);
  }

  lemma UnusedIs(recs: seq<Option<User>>, key: Key)
    ensures Unused(recs, key) <==> First(recs, key) == |recs|
  {
  }

  lemma NoneMissing(data: string, k: nat)
    requires k <= |Read(data)|
    ensures Looked(Read(data), k).Malformed? ==> !WellFormed(data)
  {
  }

  lemma LineReplaced(data: string, k: nat, u: User, offset: nat, oldlength: nat)
    requires WellFormed(data) && k < |Read(data)|
    requires offset == |Pre(ReadLines(data), k + 1)| && oldlength == |Encode(Read(data)[k].value)|
    ensures oldlength < offset <= |data| + 1
    ensures LineChanged(data, Encode(u), offset, oldlength) == Join(Placed(data, k, u))
  {
    hide Encode, Join, Pre, ReadLines, LineChanged, Record;
    var lines := ReadLines(data);
    OneLineChanged(lines, k, Encode(u));
    if k + 1 < |lines| {
      ReadClean(data, k + 1);
      CleanRecord(Record(lines[k + 1]).value);
    }
  }

  /** What replacing a record does to the records of a well-formed file. */
  lemma PlacedRead(data: string, k: nat, u: User, behind: nat -> char)
    requires k < |Read(data)| && Read(data)[k].Some? && Terminated(u)
    requires Read(data)[k].value.username == u.username || Unused(Read(data), Name(u.username))
    requires Read(data)[k].value.uid == u.uid || Unused(Read(data), Uid(u.uid))
    ensures WellFormed(data) ==>
      var data' := Join(Placed(data, k, u));
      && Rewritten(data, k, u, behind) == Some(data')
      && (Read(data') == Read(data)[k := Some(Normal(u))] <==> CleanUser(u))
      && (CleanUser(u) ==> WellFormed(data') && (Distinct(Read(data)) ==> Distinct(Read(data'))))
  {
    hide Read, Encode, Join, Distinct, Unused, ReadLines, WellFormed, CleanUser, Normal, Placed, LineChanged,
         ChangedFile, Pre, Terminated;
    if WellFormed(data) {
      var offset, oldlength := |Pre(ReadLines(data), k + 1)|, |Encode(Read(data)[k].value)|;
      LineReplaced(data, k, u, offset, oldlength);
      NewTemp(data, Encode(u), offset, oldlength, behind);
      ReadBack(data, k, u);
      if Distinct(Read(data)) {
        StaysDistinct(data, k, u);
      }
    }
  }

  /** What appending a record does to the records of a well-formed file. */
  lemma AppendedRead(data: string, u: User)
    requires u.password.None? && Terminated(u)
    requires Unused(Read(data), Name(u.username)) && Unused(Read(data), Uid(u.uid))
    ensures WellFormed(data) ==>
      var data', clean := data + [NL] + Encode(u), Clean(u.username) && Clean(u.fullname) && Clean(u.homedir);
      && (Read(data') == Read(data) + [Some(u)] <==> clean)
      && (clean ==> WellFormed(data') && (Distinct(Read(data)) ==> Distinct(Read(data'))))
  {
    hide Read, Encode, Join, Distinct, Unused, ReadLines;
    if WellFormed(data) {
      var k := |Read(data)|;
      JoinMore(ReadLines(data), Encode(u));
      ReadBack(data, k, u);
      if Distinct(Read(data)) {
        StaysDistinct(data, k, u);
      }
    }
  }

  // ----- fields with colons

  lemma SecondRecord(u: User)
    requires NL !in Encode(u) && Terminated(u)
    ensures var data, lines := InstalledFile() + [NL] + Encode(u), [InstalledFile(), Encode(u)];
            data == Join(lines) && ReadLines(data) == lines && Read(data) == [Some(Root()), Record(Encode(u))]
  {
    hide Encode, Record, ReadLines, InstalledFile, Root, Join;
    var lines := [InstalledFile(), Encode(u)];
    Installed();
    RootEncoded();
    RootClean();
    CleanRecord(Root());
    CleanRecord(u);
    NormalRoot();
    JoinOne(InstalledFile());
    JoinMore([InstalledFile()], Encode(u));
    assert [InstalledFile()] + [Encode(u)] == lines;
    ReadJoin(lines);
  }

  lemma NormalRoot()
    ensures Normal(Root()) == Root()
  {
  }

  function Bob(password: Option<CString>): (u: User) {
    User("bob", password, 1002, 1002, "b", "/h")
  }

  const COLONS: CString := "x:0:0:b:/"

  /** Behind the record of the superuser, a password with colons reads as another uid. */
  lemma UidsNotDistinct()
    ensures var recs := Read(InstalledFile() + [NL] + Encode(Bob(Some(COLONS))));
            |recs| == 2 && recs[0].Some? && recs[1].Some? && recs[0].value.uid == recs[1].value.uid == 0
  {
    hide Encode, InstalledFile, Read, Record;
    var u := Bob(Some(COLONS));
    ColonInPassword("b", "/h");
    EncodedLine(u);
    SecondRecord(u);
  }

  lemma NotRoot()
    ensures Unused([Some(Root())], Name("bob")) && Unused([Some(Root())], Uid(1002))
  {
    assert Root().username[0] == 'r' && "bob"[0] == 'b';
    FirstIs([Some(Root())], Name("bob"), 1);
    FirstIs([Some(Root())], Uid(1002), 1);
  }

  /** The file once the user is added, and the file once its password is set. */
  lemma BobAdded(data: string)
    requires data == InstalledFile() + [NL] + Encode(Bob(None))
    ensures WellFormed(data) && Read(data) == [Some(Root()), Some(Bob(None))] && First(Read(data), Name("bob")) == 1
    ensures Join(Placed(data, 1, Bob(Some(COLONS)))) == InstalledFile() + [NL] + Encode(Bob(Some(COLONS)))
  {
    hide Encode, InstalledFile, Record, ReadLines, Join, Root, Read, First, WellFormed;
    var u, v := Bob(None), Bob(Some(COLONS));
    Installed();
    NotRoot();
    AppendedRead(InstalledFile(), u);
    EncodedLine(u);
    EncodedLine(v);
    SecondRecord(u);
    SecondRecord(v);
    assert [InstalledFile(), Encode(u)][1 := Encode(v)] == [InstalledFile(), Encode(v)];
    FirstIs(Read(data), Name("bob"), 1);
  }

  /** The operations themselves lead there: from the installed file, a user is added and then sets
      such a password. */
  method UidsReached(behind: nat -> char) returns (a: Accounts)
    ensures var recs := Read(a.data);
            |recs| == 2 && recs[0].Some? && recs[1].Some? && recs[0].value.uid == recs[1].value.uid == 0
    ensures !a.Valid()
  {
    hide Encode, InstalledFile, Read, Root, Placed, Join, Rewritten, First, Unused, WellFormed;
    a := new Accounts();
    NotRoot();
    var added, id := a.AddUser("bob", 0, "b", "/h", true, true, true);
    BobAdded(a.data);
    var changed, k := a.ChangePass("bob", "", COLONS, 1002, true, behind);
    UidsNotDistinct();
  }

  /** After an account with a colon in its name is added, two accounts read with the name root. */
  lemma NamesNotDistinct()
    ensures var u := User("root:x", None, 1002, 1002, "b", "/h");
            var recs := Read(InstalledFile() + [NL] + Encode(u));
            |recs| == 2 && recs[0].Some? && recs[1].Some? && recs[0].value.username == recs[1].value.username == "root"
  {
    hide Encode, InstalledFile, Read, Record;
    var u := User("root:x", None, 1002, 1002, "b", "/h");
    ColonInName("b", "/h");
    EncodedLine(u);
    SecondRecord(u);
  }

  lemma EncodedLine(u: User)
    requires NL !in u.username && NL !in PasswordText(u) && NL !in u.fullname && NL !in u.homedir
    ensures NL !in Encode(u)
  {
    hide Digits;
    NoNewline(u.uid);
    NoNewline(u.gid);
  }
}
