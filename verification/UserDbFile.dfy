/** Whole user database files: which sets of users survive being written and read back, and what is true
    of the users read from any file at all. */
module UserDbFile {
  import opened AuthVectors
  import opened UserDbText
  import opened UserDb

  /** Users by IMSI, as the server keeps them. */
  type Users = map<nat, UserRecord>

  predicate Keyed(db: Users) {
    forall i :: i in db ==> db[i].imsi == i && Typed(db[i])
  }

  predicate AddressesDistinct(db: Users) {
    forall i, j :: i in db && j in db && i != j && db[i].staticIp == db[j].staticIp ==> db[i].staticIp == NO_IP
  }

  /** What a caller can check of its users before writing them. */
  predicate Storable(env: Env, db: Users) {
    AddressesDistinct(db) && forall i :: i in db ==> RecordOk(env, db[i])
  }

  /** The same users as far as the file knows them. */
  predicate SamePersisted(a: Users, b: Users) {
    a.Keys == b.Keys && forall i :: i in a ==> Persisted(a[i]) == Persisted(b[i])
  }

  // ---------- writing in the order of the map ----------

  ghost predicate IsLeast(m: nat, s: set<nat>) {
    m in s && forall k :: k in s ==> m <= k
  }

  lemma {:induction false} LeastExists(s: set<nat>)
    requires s != {}
    ensures exists m :: IsLeast(m, s)
  {
    var x :| x in s;
    var rest := s - {x};
    assert forall k :: k in s ==> k == x || k in rest;
    if rest == {} {
      assert IsLeast(x, s);
    } else {
      LeastExists(rest);
      var m :| IsLeast(m, rest);
      assert IsLeast(if x < m then x else m, s);
    }
  }

  ghost function Least(s: set<nat>): (m: nat)
    requires s != {}
    ensures IsLeast(m, s)
  {
    LeastExists(s);
    var m :| IsLeast(m, s);
    m
  }

  /** The records of some of the users, by ascending IMSI. */
  ghost function RecordsOf(db: Users, keys: set<nat>): seq<UserRecord>
    requires keys <= db.Keys
  {
    if keys == {} then [] else [db[Least(keys)]] + RecordsOf(db, keys - {Least(keys)})
  }

  ghost function WriteDb(header: seq<string>, db: Users): string {
    Header(header) + LinesOf(RecordsOf(db, db.Keys))
  }

  lemma LeastWrittenFirst(db: Users, keys: set<nat>, i: nat)
    requires keys <= db.Keys && IsLeast(i, keys)
    ensures LinesOf(RecordsOf(db, keys)) == LineOf(db[i]) + LinesOf(RecordsOf(db, keys - {i}))
  {
    hide LineOf;
    assert Least(keys) == i;
  }

  lemma NothingWrittenLast(db: Users)
    ensures LinesOf(RecordsOf(db, {})) == ""
  {
  }

  // ---------- the lines of a written file ----------

  function Bodies(us: seq<UserRecord>): seq<string> {
    if us == [] then [] else [Joined(Fields(us[0]))] + Bodies(us[1..])
  }

  lemma {:induction false} SplitHeader(header: seq<string>, rest: string)
    requires CommentLines(header)
    ensures SplitBy(Header(header) + rest, '\n') == header + SplitBy(rest, '\n')
  {
    hide SplitBy;
    if header == [] {
      assert Header(header) + rest == rest;
    } else {
      var tail := Header(header[1..]) + rest;
      assert Header(header) + rest == header[0] + ['\n'] + tail;
      SplitFirst(header[0], '\n', tail);
      SplitHeader(header[1..], rest);
      assert header == [header[0]] + header[1..];
    }
  }

  lemma {:induction false} SplitRecords(us: seq<UserRecord>)
    requires forall i :: 0 <= i < |us| ==> '\n' !in Joined(Fields(us[i]))
    ensures SplitBy(LinesOf(us), '\n') == Bodies(us)
  {
    hide Fields, Joined;
    if us != [] {
      var body, tail := Joined(Fields(us[0])), LinesOf(us[1..]);
      assert LinesOf(us) == body + ['\n'] + tail;
      SplitFirst(body, '\n', tail);
      SplitRecords(us[1..]);
    }
  }

  lemma {:induction false} HeaderIsIgnored(env: Env, l: Loaded, header: seq<string>, rest: seq<string>)
    requires CommentLines(header)
    ensures ReadLines(env, l, header + rest) == ReadLines(env, l, rest)
  {
    if header == [] {
      assert header + rest == rest;
    } else if l.ok {
      var all := header + rest;
      assert all[0] == header[0] && all[1..] == header[1..] + rest;
      assert ParseLine(env, all[0]) == Ignored;
      HeaderIsIgnored(env, l, header[1..], rest);
    }
  }

  // ---------- storable users come back ----------

  /** The users that come back, and who owns which static address. */
  function RestoredUsers(env: Env, db: Users, keys: set<nat>): Users
    requires keys <= db.Keys
  {
    map i | i in keys :: Restored(env, db[i])
  }

  ghost function Owners(db: Users, keys: set<nat>): map<string, nat>
    requires keys <= db.Keys && AddressesDistinct(db)
  {
    map i | i in keys && db[i].staticIp != NO_IP :: db[i].staticIp := i
  }

  /** Nothing read so far is in the way of these users. */
  ghost predicate NoClash(l: Loaded, db: Users, keys: set<nat>)
    requires keys <= db.Keys
  {
    keys !! l.users.Keys && forall i :: i in keys && db[i].staticIp != NO_IP ==> db[i].staticIp !in l.ips
  }

  lemma EntryOfRecord(env: Env, u: UserRecord)
    requires Typed(u) && RecordOk(env, u)
    ensures ParseLine(env, Joined(Fields(u))) == Accepted(Restored(env, u), u.staticIp != NO_IP)
  {
    hide *;
    LineRoundTrip(env, u);
    FieldsRoundTrip(env, u);
  }

  /** The owner of a static address, if it has one among these users. */
  lemma OwnerOf(db: Users, keys: set<nat>, ip: string) returns (k: nat)
    requires keys <= db.Keys && AddressesDistinct(db) && ip in Owners(db, keys)
    ensures k in keys && ip == db[k].staticIp && ip != NO_IP && Owners(db, keys)[ip] == k
  {
    k :| k in keys && db[k].staticIp != NO_IP && db[k].staticIp == ip;
  }

  lemma OwnsItsAddress(db: Users, keys: set<nat>, k: nat)
    requires keys <= db.Keys && AddressesDistinct(db) && k in keys && db[k].staticIp != NO_IP
    ensures db[k].staticIp in Owners(db, keys) && Owners(db, keys)[db[k].staticIp] == k
  {
  }

  lemma AddRecord(env: Env, l: Loaded, db: Users, i: nat)
    requires l.ok && i in db && Keyed(db) && Storable(env, db) && NoClash(l, db, {i})
    ensures AddEntry(l, ParseLine(env, Joined(Fields(db[i]))))
         == Loaded(true, l.users + RestoredUsers(env, db, {i}), l.ips + Owners(db, {i}))
  {
    var u := db[i];
    assert u.imsi == i && i !in l.users && (u.staticIp != NO_IP ==> u.staticIp !in l.ips);
    EntryOfRecord(env, u);
    RestoredPersists(env, u);
    SingleMaps(env, db, i);
    hide Fields, Joined, ParseLine, RecordOk, Typed, Restored, RestoredUsers, Owners, Storable, NoClash, Keyed, Persisted;
    AddSingle(l, Accepted(Restored(env, u), u.staticIp != NO_IP));
  }

  lemma SingleMaps(env: Env, db: Users, i: nat)
    requires i in db && AddressesDistinct(db)
    ensures RestoredUsers(env, db, {i}) == map[i := Restored(env, db[i])]
    ensures Owners(db, {i}) == if db[i].staticIp != NO_IP then map[db[i].staticIp := i] else map[]
  {
    hide Restored;
  }

  lemma AddSingle(l: Loaded, e: Entry)
    requires l.ok && e.Accepted? && e.user.imsi !in l.users && (e.fixedIp ==> e.user.staticIp !in l.ips)
    ensures AddEntry(l, e)
         == Loaded(true, l.users + map[e.user.imsi := e.user],
                   l.ips + if e.fixedIp then map[e.user.staticIp := e.user.imsi] else map[])
  {
    assert l.users[e.user.imsi := e.user] == l.users + map[e.user.imsi := e.user];
    assert l.ips[e.user.staticIp := e.user.imsi] == l.ips + map[e.user.staticIp := e.user.imsi];
  }

  lemma RestoredSplit(env: Env, db: Users, keys: set<nat>, i: nat)
    requires keys <= db.Keys && i in keys
    ensures RestoredUsers(env, db, {i}) + RestoredUsers(env, db, keys - {i}) == RestoredUsers(env, db, keys)
  {
    hide Restored;
  }

  lemma OwnersSplit(db: Users, keys: set<nat>, i: nat)
    requires keys <= db.Keys && AddressesDistinct(db) && i in keys
    ensures Owners(db, {i}) + Owners(db, keys - {i}) == Owners(db, keys)
  {
    hide Owners, AddressesDistinct;
    var whole, one, others := Owners(db, keys), Owners(db, {i}), Owners(db, keys - {i});
    forall ip | ip in whole
      ensures ip in one + others
    {
      var k := OwnerOf(db, keys, ip);
      OwnsItsAddress(db, if k == i then {i} else keys - {i}, k);
    }
    forall ip | ip in one
      ensures ip in whole && whole[ip] == one[ip]
    {
      var k := OwnerOf(db, {i}, ip);
      OwnsItsAddress(db, keys, k);
    }
    forall ip | ip in others
      ensures ip in whole && whole[ip] == others[ip]
    {
      var k := OwnerOf(db, keys - {i}, ip);
      OwnsItsAddress(db, keys, k);
    }
  }

  lemma AddedKeepsNoClash(env: Env, l: Loaded, db: Users, keys: set<nat>, i: nat)
    requires keys <= db.Keys && i in keys && AddressesDistinct(db) && NoClash(l, db, keys)
    ensures NoClash(Loaded(true, l.users + RestoredUsers(env, db, {i}), l.ips + Owners(db, {i})), db, keys - {i})
  {
    hide Restored;
  }

  lemma JoinMaps<K, V>(a: map<K, V>, b: map<K, V>, c: map<K, V>)
    ensures a + b + c == a + (b + c)
  {
  }

  lemma ReadFirst(env: Env, l: Loaded, line: string, later: seq<string>)
    requires l.ok
    ensures ReadLines(env, l, [line] + later) == ReadLines(env, AddEntry(l, ParseLine(env, line)), later)
  {
    assert ([line] + later)[1..] == later;
    hide AddEntry, ParseLine;
  }

  lemma {:induction false} ReadRecords(env: Env, l: Loaded, db: Users, keys: set<nat>)
    requires l.ok && keys <= db.Keys && Keyed(db) && Storable(env, db) && NoClash(l, db, keys)
    ensures ReadLines(env, l, Bodies(RecordsOf(db, keys)))
         == Loaded(true, l.users + RestoredUsers(env, db, keys), l.ips + Owners(db, keys))
    decreases keys
  {
    if keys == {} {
      assert l.users + RestoredUsers(env, db, keys) == l.users;
      assert l.ips + Owners(db, keys) == l.ips;
    } else {
      var i := Least(keys);
      var others := keys - {i};
      var users, owners := RestoredUsers(env, db, {i}), Owners(db, {i});
      var next := Loaded(true, l.users + users, l.ips + owners);
      var later := Bodies(RecordsOf(db, others));
      var body := Joined(Fields(db[i]));
      assert Bodies(RecordsOf(db, keys)) == [body] + later;
      assert NoClash(l, db, {i});
      hide Fields, Joined, ParseLine, AddEntry, RecordOk, Typed, RestoredUsers, Owners, NoClash, AddressesDistinct;
      AddRecord(env, l, db, i);
      ReadFirst(env, l, body, later);
      AddedKeepsNoClash(env, l, db, keys, i);
      hide ReadLines, Bodies, RecordsOf;
      ReadRecords(env, next, db, others);
      RestoredSplit(env, db, keys, i);
      OwnersSplit(db, keys, i);
      JoinMaps(l.users, users, RestoredUsers(env, db, others));
      JoinMaps(l.ips, owners, Owners(db, others));
    }
  }

  lemma {:induction false} RecordsHaveNoNewline(env: Env, db: Users, keys: set<nat>)
    requires keys <= db.Keys && Keyed(db) && Storable(env, db)
    ensures forall u :: u in RecordsOf(db, keys) ==> '\n' !in Joined(Fields(u))
    decreases keys
  {
    hide Fields, Joined, RecordOk;
    if keys != {} {
      LineRoundTrip(env, db[Least(keys)]);
      RecordsHaveNoNewline(env, db, keys - {Least(keys)});
    }
  }

  /** The whole file comes back: every user, and the map from static addresses to their owners. */
  lemma WrittenComesBack(env: Env, header: seq<string>, db: Users)
    requires Keyed(db) && CommentLines(header) && Storable(env, db)
    ensures ReadFile(env, WriteDb(header, db))
         == Loaded(true, RestoredUsers(env, db, db.Keys), Owners(db, db.Keys))
  {
    var us := RecordsOf(db, db.Keys);
    var empty := Loaded(true, map[], map[]);
    assert NoClash(empty, db, db.Keys);
    assert empty.users + RestoredUsers(env, db, db.Keys) == RestoredUsers(env, db, db.Keys);
    assert empty.ips + Owners(db, db.Keys) == Owners(db, db.Keys);
    hide SplitBy, ReadLines, RestoredUsers, Owners, RecordOk, Fields, Joined, Header, LinesOf, RecordsOf, Bodies, Keyed,
      AddressesDistinct, NoClash, Storable, CommentLines;
    RecordsHaveNoNewline(env, db, db.Keys);
    SplitHeader(header, LinesOf(us));
    SplitRecords(us);
    HeaderIsIgnored(env, empty, header, Bodies(us));
    ReadRecords(env, empty, db, db.Keys);
  }

  // ---------- what any file gives ----------

  /** Kept while reading, whatever the lines are. */
  ghost predicate Sound(env: Env, l: Loaded) {
    && Keyed(l.users)
    && (forall i :: i in l.users ==> RecordOk(env, l.users[i]))
    && (forall i :: i in l.users && l.users[i].staticIp != NO_IP ==>
          l.users[i].staticIp in l.ips && l.ips[l.users[i].staticIp] == i)
  }

  lemma NamesReadAreClean(line: string)
    requires line != "" && line[0] != '#' && '\n' !in line && |SplitBy(line, ',')| == 10
    ensures CleanName(SplitBy(line, ',')[0])
  {
    PiecesAreClean(line, ',', '\n');
    if SplitBy(line, ',')[0] != "" {
      FirstPieceBegins(line, ',');
    }
  }

  lemma EntriesAreSound(env: Env, line: string)
    requires '\n' !in line && ParseLine(env, line).Accepted?
    ensures var e := ParseLine(env, line);
            RecordOk(env, e.user) && Typed(e.user) && (!e.fixedIp ==> e.user.staticIp == NO_IP)
  {
    NamesReadAreClean(line);
    hide SplitBy, CleanName, DottedQuad, ReadHex;
  }

  lemma AddEntryKeepsSound(env: Env, l: Loaded, line: string)
    requires Sound(env, l) && '\n' !in line
    ensures Sound(env, AddEntry(l, ParseLine(env, line)))
  {
    hide ParseLine, RecordOk, Typed;
    if ParseLine(env, line).Accepted? {
      EntriesAreSound(env, line);
    }
  }

  lemma {:induction false} ReadingKeepsSound(env: Env, l: Loaded, lines: seq<string>)
    requires Sound(env, l) && forall i :: 0 <= i < |lines| ==> '\n' !in lines[i]
    ensures Sound(env, ReadLines(env, l, lines))
    decreases |lines|
  {
    hide Sound, AddEntry, ParseLine;
    if lines != [] && l.ok {
      AddEntryKeepsSound(env, l, lines[0]);
      ReadingKeepsSound(env, AddEntry(l, ParseLine(env, lines[0])), lines[1..]);
    }
  }

  /** The users read from any file, even one that is refused half-way, could be written again. */
  lemma ReadUsersAreStorable(env: Env, file: string)
    ensures Keyed(ReadFile(env, file).users) && Storable(env, ReadFile(env, file).users)
  {
    PiecesAreClean(file, '\n', '\n');
    ReadingKeepsSound(env, Loaded(true, map[], map[]), SplitBy(file, '\n'));
    hide SplitBy, ReadLines, RecordOk;
  }

  // ---------- which files go through ----------

  /** The line is accepted and asks for this static address. */
  predicate Claims(env: Env, line: string, ip: string) {
    var e := ParseLine(env, line);
    e.Accepted? && e.fixedIp && e.user.staticIp == ip
  }

  ghost predicate NoneRejected(env: Env, lines: seq<string>) {
    forall i :: 0 <= i < |lines| ==> !ParseLine(env, lines[i]).Rejected?
  }

  ghost predicate NoneTaken(env: Env, ips: map<string, nat>, lines: seq<string>) {
    forall i, ip :: 0 <= i < |lines| && Claims(env, lines[i], ip) ==> ip !in ips
  }

  ghost predicate ClaimedOnce(env: Env, lines: seq<string>) {
    forall i, j, ip :: 0 <= i < j < |lines| && Claims(env, lines[i], ip) ==> !Claims(env, lines[j], ip)
  }

  /** Reading goes through exactly when no line is refused for its form and no static address is claimed
      twice, even by a record that is dropped because its IMSI is taken. */
  lemma {:induction false} ReadingGoesThroughIff(env: Env, l: Loaded, lines: seq<string>)
    requires l.ok
    ensures ReadLines(env, l, lines).ok
       <==> NoneRejected(env, lines) && NoneTaken(env, l.ips, lines) && ClaimedOnce(env, lines)
    decreases |lines|
  {
    if lines != [] {
      var line, rest := lines[0], lines[1..];
      var next := AddEntry(l, ParseLine(env, line));
      assert lines == [line] + rest;
      FirstLine(env, l, line, rest);
      hide ParseLine, AddEntry, Claims;
      if next.ok {
        ReadingGoesThroughIff(env, next, rest);
      }
      hide NoneRejected, NoneTaken, ClaimedOnce;
    }
  }

  /** None of these lines claims an address that the first line claims. */
  ghost predicate NotAgain(env: Env, line: string, rest: seq<string>) {
    forall i, ip :: 0 <= i < |rest| && Claims(env, line, ip) ==> !Claims(env, rest[i], ip)
  }

  lemma FirstOfThree(env: Env, ips: map<string, nat>, line: string, rest: seq<string>)
    ensures NoneRejected(env, [line] + rest) <==> !ParseLine(env, line).Rejected? && NoneRejected(env, rest)
    ensures NoneTaken(env, ips, [line] + rest)
       <==> (forall ip :: Claims(env, line, ip) ==> ip !in ips) && NoneTaken(env, ips, rest)
    ensures ClaimedOnce(env, [line] + rest) <==> NotAgain(env, line, rest) && ClaimedOnce(env, rest)
  {
    var lines := [line] + rest;
    hide ParseLine, Claims;
    assert lines[0] == line && forall i :: 0 <= i < |rest| ==> lines[i + 1] == rest[i];
    assert forall i :: 0 < i < |lines| ==> lines[i] == rest[i - 1];
  }

  /** Once the first line is added, its address counts among those taken. */
  lemma TakenByFirst(env: Env, l: Loaded, line: string, rest: seq<string>)
    requires l.ok && AddEntry(l, ParseLine(env, line)).ok
    ensures NoneTaken(env, AddEntry(l, ParseLine(env, line)).ips, rest)
       <==> NoneTaken(env, l.ips, rest) && NotAgain(env, line, rest)
  {
    var next := AddEntry(l, ParseLine(env, line));
    assert forall ip :: ip in next.ips <==> ip in l.ips || Claims(env, line, ip);
    hide ParseLine, Claims, AddEntry;
  }

  /** What the first line contributes to the condition. */
  lemma FirstLine(env: Env, l: Loaded, line: string, rest: seq<string>)
    requires l.ok
    ensures var next := AddEntry(l, ParseLine(env, line));
            (NoneRejected(env, [line] + rest) && NoneTaken(env, l.ips, [line] + rest) && ClaimedOnce(env, [line] + rest)
             <==> next.ok && NoneRejected(env, rest) && NoneTaken(env, next.ips, rest) && ClaimedOnce(env, rest))
  {
    hide *;
    FirstOfThree(env, l.ips, line, rest);
    FirstIsAdded(env, l, line);
    if AddEntry(l, ParseLine(env, line)).ok {
      TakenByFirst(env, l, line, rest);
    }
  }

  lemma FirstIsAdded(env: Env, l: Loaded, line: string)
    requires l.ok
    ensures AddEntry(l, ParseLine(env, line)).ok
       <==> !ParseLine(env, line).Rejected? && forall ip :: Claims(env, line, ip) ==> ip !in l.ips
  {
    hide ParseLine;
    assert forall ip :: Claims(env, line, ip) ==> ip == ParseLine(env, line).user.staticIp;
  }

  /** For whole files. */
  lemma FileGoesThroughIff(env: Env, file: string)
    ensures var lines := SplitBy(file, '\n');
            (ReadFile(env, file).ok <==> NoneRejected(env, lines) && ClaimedOnce(env, lines))
  {
    ReadingGoesThroughIff(env, Loaded(true, map[], map[]), SplitBy(file, '\n'));
    hide SplitBy, ReadLines, NoneRejected, ClaimedOnce;
  }

  /** What was read before stays. */
  lemma {:induction false} ReadingOnlyAdds(env: Env, l: Loaded, lines: seq<string>)
    ensures var r := ReadLines(env, l, lines);
            && (forall i :: i in l.users ==> i in r.users && r.users[i] == l.users[i])
            && (forall ip :: ip in l.ips ==> ip in r.ips && r.ips[ip] == l.ips[ip])
    decreases |lines|
  {
    hide ParseLine;
    if lines != [] && l.ok {
      ReadingOnlyAdds(env, AddEntry(l, ParseLine(env, lines[0])), lines[1..]);
    }
  }

  /** The failing case: a second record for an IMSI is dropped, no user ever has its static address, and
      still any later record with that address is refused. */
  lemma DroppedUserKeepsAddress(env: Env, l: Loaded, line: string, between: seq<string>, later: string, ip: string)
    requires Sound(env, l) && l.ok && '\n' !in line && forall i :: 0 <= i < |between| ==> '\n' !in between[i]
    requires ip != NO_IP && ip !in l.ips && Claims(env, line, ip) && Claims(env, later, ip)
    requires ParseLine(env, line).user.imsi in l.users
    ensures var end := ReadLines(env, l, [line] + between + [later]);
            && !end.ok
            && forall i :: i in ReadLines(env, l, [line] + between).users ==>
                 ReadLines(env, l, [line] + between).users[i].staticIp != ip
  {
    var next := AddEntry(l, ParseLine(env, line));
    AddEntryKeepsSound(env, l, line);
    assert next.users == l.users && next.ips[ip] == ParseLine(env, line).user.imsi;
    assert next.users[next.ips[ip]].staticIp != ip;
    ReadFirst(env, l, line, between);
    ReadingKeepsSound(env, next, between);
    ReadingOnlyAdds(env, next, between);
    var lines := [line] + between + [later];
    assert lines[0] == line && lines[|lines| - 1] == later;
    hide ParseLine, AddEntry, ReadLines, Claims;
    ReadingGoesThroughIff(env, l, lines);
  }

  /** Three records, the first two of one user, the last two with one address: the file is refused though
      no user of it has that address. */
  lemma RefusedForNoOnesAddress(env: Env, a: UserRecord, b: UserRecord, c: UserRecord)
    requires Typed(a) && Typed(b) && Typed(c) && RecordOk(env, a) && RecordOk(env, b) && RecordOk(env, c)
    requires a.imsi == b.imsi && a.staticIp == NO_IP && b.staticIp == c.staticIp != NO_IP
    ensures var lines := [Joined(Fields(a)), Joined(Fields(b)), Joined(Fields(c))];
            var l := ReadLines(env, Loaded(true, map[], map[]), lines);
            && !l.ok && l.users == map[a.imsi := Restored(env, a)]
            && a.staticIp != b.staticIp
  {
    hide *;
    var x, y, z := Joined(Fields(a)), Joined(Fields(b)), Joined(Fields(c));
    var l0 := Loaded(true, map[], map[]);
    EntryIs(env, a);
    EntryIs(env, b);
    EntryIs(env, c);
    var l1 := AddEntry(l0, ParseLine(env, x));
    var l2 := AddEntry(l1, ParseLine(env, y));
    assert [x, y, z] == [x] + [y, z] && [y, z] == [y] + [z] && [z] == [z] + [];
    ThirdIsRefused(ParseLine(env, x), ParseLine(env, y), ParseLine(env, z));
    ReadFirst(env, l0, x, [y, z]);
    ReadFirst(env, l1, y, [z]);
    ReadFirst(env, l2, z, []);
    NothingToRead(env, AddEntry(l2, ParseLine(env, z)));
  }

  lemma EntryIs(env: Env, u: UserRecord)
    requires Typed(u) && RecordOk(env, u)
    ensures ParseLine(env, Joined(Fields(u))) == Accepted(Restored(env, u), u.staticIp != NO_IP)
    ensures Restored(env, u).imsi == u.imsi && Restored(env, u).staticIp == u.staticIp
  {
    hide *;
    EntryOfRecord(env, u);
    RestoredPersists(env, u);
  }

  lemma ThirdIsRefused(x: Entry, y: Entry, z: Entry)
    requires x.Accepted? && y.Accepted? && z.Accepted? && !x.fixedIp && y.fixedIp && z.fixedIp
    requires x.user.imsi == y.user.imsi && y.user.staticIp == z.user.staticIp
    ensures var l0 := Loaded(true, map[], map[]);
            var l1, l2 := AddEntry(l0, x), AddEntry(AddEntry(l0, x), y);
            l1.ok && l2.ok && !AddEntry(l2, z).ok && AddEntry(l2, z).users == map[x.user.imsi := x.user]
  {
  }

  lemma NothingToRead(env: Env, l: Loaded)
    ensures ReadLines(env, l, []) == l
  {
  }

  // ---------- both directions ----------

  lemma SamePersistedIsStorable(env: Env, a: Users, b: Users)
    requires SamePersisted(a, b) && Storable(env, a)
    ensures Storable(env, b)
  {
    hide CleanName, IpOk;
    forall i | i in b
      ensures a[i].staticIp == b[i].staticIp && RecordOk(env, b[i])
    {
      assert Persisted(a[i]) == Persisted(b[i]) && RecordOk(env, a[i]);
    }
  }

  /** A server finds its users again after a restart exactly when they are storable: names without commas
      and newlines that do not begin with a hash, distinct valid static addresses, and OPc derived from
      OP wherever OP is configured. */
  lemma RestartRestoresIff(env: Env, header: seq<string>, db: Users)
    requires Keyed(db) && CommentLines(header)
    ensures var l := ReadFile(env, WriteDb(header, db)); (l.ok && SamePersisted(l.users, db)) <==> Storable(env, db)
  {
    var file := WriteDb(header, db);
    var l := ReadFile(env, file);
    hide ReadFile, WriteDb, RecordOk, Restored, Persisted, AddressesDistinct;
    if Storable(env, db) {
      WrittenComesBack(env, header, db);
      forall i | i in db
        ensures Persisted(l.users[i]) == Persisted(db[i])
      {
        RestoredPersists(env, db[i]);
      }
    }
    if SamePersisted(l.users, db) {
      ReadUsersAreStorable(env, file);
      SamePersistedIsStorable(env, l.users, db);
    }
  }

  /** Whatever a file gives when it is read, it gives again after being written and read once more. */
  lemma RereadingIsStable(env: Env, header: seq<string>, file: string)
    requires CommentLines(header)
    ensures var users := ReadFile(env, file).users;
            var again := ReadFile(env, WriteDb(header, users));
            again.ok && SamePersisted(again.users, users)
  {
    ReadUsersAreStorable(env, file);
    RestartRestoresIff(env, header, ReadFile(env, file).users);
  }

  // ---------- authentication across a restart ----------

  function AuthOf(u: UserRecord, lastRand: B16): AuthData {
    AuthData(u.algo, u.key, u.opc, u.amf, u.sqn, lastRand)
  }

  /** After a restart a user is served the very vector it would have been served without it, even though
      the last challenge is forgotten: no SQN is skipped and none is used twice. */
  lemma RestartKeepsVectors(
    c: Crypto, env: Env, header: seq<string>, db: Users, imsi: nat, challenge: B16, before: B16, after: B16)
    requires Keyed(db) && CommentLines(header) && Storable(env, db) && imsi in db
    ensures var users := ReadFile(env, WriteDb(header, db)).users;
            imsi in users && VectorOf(c, AuthOf(users[imsi], after), challenge)
                          == VectorOf(c, AuthOf(db[imsi], before), challenge)
  {
    RestartRestoresIff(env, header, db);
    hide ReadFile, WriteDb, Storable, Keyed, KeysOf, MacOf, Autn, Xor;
    var users := ReadFile(env, WriteDb(header, db)).users;
    assert Persisted(users[imsi]) == Persisted(db[imsi]);
  }
}
