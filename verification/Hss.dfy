/** The home subscriber server: user contexts with in-place counters, the user database file,
    authentication requests and resynchronisation. */
module Hss {
  import opened Basics
  import opened Sqn
  import opened AuthVectors
  import opened UserDb
  import opened UserDbFile
  import opened UserDbText

  // ---------- byte array loops ----------

  method XorBytes(a: Bytes, b: Bytes) returns (r: Bytes)
    requires |a| == |b|
    ensures r == Xor(a, b)
  {
    r := [];
    var i := 0;
    while i < |a|
      invariant 0 <= i == |r| <= |a|
      invariant forall k :: 0 <= k < i ==> r[k] == XorByte(a[k], b[k])
    {
      r := r + [XorByte(a[i], b[i])];
      i := i + 1;
    }
  }

  method RotateBytes(x: B16, places: nat) returns (r: Bytes)
    ensures r == Rotate(x, places)
  {
    r := [];
    var i := 0;
    while i < 16
      invariant 0 <= i == |r| <= 16
      invariant forall k :: 0 <= k < i ==> r[k] == x[(k + places) % 16]
    {
      r := r + [x[(i + places) % 16]];
      i := i + 1;
    }
  }

  /** Copies bytes into an array from position `from` on. */
  method Store(dst: array<byte>, from: nat, bytes: Bytes)
    requires from + |bytes| <= dst.Length
    modifies dst
    ensures dst[..] == old(dst[..from]) + bytes + old(dst[from + |bytes|..])
  {
    ghost var before := dst[..];
    var i := 0;
    while i < |bytes|
      invariant 0 <= i <= |bytes|
      invariant dst[..] == before[..from] + bytes[..i] + before[from + i..]
    {
      dst[from + i] := bytes[i];
      i := i + 1;
    }
  }

  /** Fills a whole array. */
  method Fill(dst: array<byte>, bytes: Bytes)
    requires |bytes| == dst.Length
    modifies dst
    ensures dst[..] == bytes
  {
    Store(dst, 0, bytes);
  }

  method StoreAutn(autn: array<byte>, sqn: B6, ak: B6, amf: B2, mac: B8)
    requires autn.Length == 16
    modifies autn
    ensures autn[..] == Autn(sqn, ak, amf, mac)
  {
    var masked := XorBytes(sqn, ak);
    Store(autn, 0, masked);
    Store(autn, 6, amf);
    Store(autn, 8, mac);
  }

  /** K exclusive-or RAND and the keys cut and rotated out of it. */
  method DeriveXor(k: B16, rand: B16) returns (xdout: B16, keys: Keys)
    ensures xdout == Xor(k, rand) && keys == XorKeys(k, rand) && keys.res == xdout[..8]
  {
    xdout := XorBytes(k, rand);
    var ck := RotateBytes(xdout, 1);
    var ik := RotateBytes(xdout, 2);
    keys := Keys(xdout[..8], ck, ik, xdout[3..9]);
  }

  lemma XorVector(c: Crypto, u: AuthData, rand: B16)
    requires u.algo == XorAlgo
    ensures var keys := XorKeys(u.key, rand);
            VectorOf(c, u, rand) == Vector(rand, Autn(u.sqn, keys.ak, u.amf, XorMac(u.key, rand, u.sqn, u.amf)),
                                           keys.res, c.kAsme(keys.ck, keys.ik, Xor(u.sqn, keys.ak)))
  {
    hide Xor, Rotate, XorKeys, Autn;
  }

  // ---------- one line of the user database file ----------

  /** Takes the fields of a line apart, from left to right; the first bad one ends it. */
  method ReadFields(env: Env, f: seq<string>) returns (e: Entry)
    requires |f| == 10
    ensures e == ParseFields(env, f)
  {
    hide ReadHex, StrToUll, StrToU16, DottedQuad;
    var algo := Milenage;
    if f[1] == "xor" {
      algo := XorAlgo;
    } else if f[1] != "mil" {
      return Rejected;
    }
    var imsi := StrToUll(f[2]);
    var key: B16 := ScanHex(f[3], 16, env.leftover);
    var opConfigured, op, opc := false, env.blank, env.blank;
    if f[4] == "op" {
      opConfigured := true;
      op := ScanHex(f[5], 16, env.leftover);
      opc := env.computeOpc(key, op);
    } else if f[4] == "opc" {
      opc := ScanHex(f[5], 16, env.leftover);
    } else {
      return Rejected;
    }
    var amf: B2 := ScanHex(f[6], 2, env.leftover);
    var sqn: B6 := ScanHex(f[7], 6, env.leftover);
    var qci := StrToU16(f[8]);
    var staticIp := NO_IP;
    if f[9] != "dynamic" {
      if !DottedQuad(f[9]) {
        return Rejected;
      }
      staticIp := f[9];
    }
    return Accepted(UserRecord(f[0], algo, imsi, key, opConfigured, op, opc, amf, sqn, qci, staticIp), f[9] != "dynamic");
  }

  /** Formats the fields of a user, separates them by commas and ends the line. */
  method WriteLine(u: UserRecord) returns (line: string)
    ensures line == LineOf(u)
  {
    hide HexString, Padded, Joined;
    var key := FormatHex(u.key);
    var code := FormatHex(if u.opConfigured then u.op else u.opc);
    var amf := FormatHex(u.amf);
    var sqn := FormatHex(u.sqn);
    line := Joined([u.name, if u.algo == XorAlgo then "xor" else "mil", Padded(u.imsi, 15), key,
                    if u.opConfigured then "op" else "opc", code, amf, sqn, Padded(u.qci, 0),
                    if u.staticIp != NO_IP then u.staticIp else "dynamic"]) + "\n";
  }

  // ---------- user contexts ----------

  class UeCtx {
    const name: string
    const algo: Algo
    const imsi: nat
    const key: B16
    const opConfigured: bool
    const op: B16
    const opc: B16
    const amf: B2
    const qci: nat
    const staticIp: string
    const sqn: array<byte>
    const lastRand: array<byte>

    /** Array lengths never change, so this holds for good once the context is built. */
    predicate Wf() {
      sqn.Length == 6 && lastRand.Length == 16 && sqn != lastRand
    }

    function Auth(): AuthData
      requires Wf()
      reads sqn, lastRand
    {
      AuthData(algo, key, opc, amf, sqn[..], lastRand[..])
    }

    function Record(): UserRecord
      requires Wf()
      reads sqn
    {
      UserRecord(name, algo, imsi, key, opConfigured, op, opc, amf, sqn[..], qci, staticIp)
    }

    constructor (r: UserRecord)
      ensures Wf() && Record() == r && fresh(sqn) && fresh(lastRand)
    {
      name, algo, imsi, key, opConfigured := r.name, r.algo, r.imsi, r.key, r.opConfigured;
      op, opc, amf, qci, staticIp := r.op, r.opc, r.amf, r.qci, r.staticIp;
      var counter := new byte[6](i requires 0 <= i < 6 => r.sqn[i]);
      sqn := counter;
      lastRand := new byte[16];
      assert counter[..] == r.sqn;
    }
  }

  /** No two contexts share an array, so a request to one leaves every other untouched. */
  ghost predicate Separate(users: map<nat, UeCtx>) {
    && (forall i :: i in users ==> users[i].Wf() && users[i].imsi == i)
    && (forall i, j :: i in users && j in users && i != j ==>
          {users[i].sqn, users[i].lastRand} !! {users[j].sqn, users[j].lastRand})
  }

  class HssServer {
    const c: Crypto
    const env: Env
    var users: map<nat, UeCtx>
    var ipToImsi: map<string, nat>

    ghost predicate Valid()
      reads `users
    {
      Separate(users)
    }

    /** The users as values. */
    ghost function Records(): Users
      requires Valid()
      reads `users, set i | i in users :: users[i].sqn
    {
      map i | i in users :: users[i].Record()
    }

    constructor (c: Crypto, env: Env)
      ensures Valid() && users == map[] && ipToImsi == map[] && this.c == c && this.env == env
    {
      this.c := c;
      this.env := env;
      users := map[];
      ipToImsi := map[];
    }

    /** A user whose IMSI is taken is dropped. */
    method InsertUser(u: UserRecord)
      requires Valid()
      modifies `users
      ensures Valid()
      ensures Records() == if u.imsi in old(users) then old(Records()) else old(Records())[u.imsi := u]
    {
      if u.imsi !in users {
        var ue := new UeCtx(u);
        users := users[u.imsi := ue];
      }
    }

    /** One line of the file. The static address of a dropped user stays taken. */
    method AddLine(line: string) returns (ok: bool)
      requires Valid()
      modifies this
      ensures Valid()
      ensures Loaded(ok, Records(), ipToImsi)
           == AddEntry(Loaded(true, old(Records()), old(ipToImsi)), ParseLine(env, line))
    {
      hide SplitBy, ParseFields, Separate, UeCtx.Record;
      if line == "" || line[0] == '#' {
        return true;
      }
      var split := SplitString(line, ',');
      if |split| != 10 {
        return false;
      }
      var entry := ReadFields(env, split);
      assert entry == ParseLine(env, line);
      hide ParseLine;
      match entry {
        case Ignored => return true;
        case Rejected => return false;
        case Accepted(u, fixedIp) =>
          if fixedIp {
            if u.staticIp in ipToImsi {
              return false;
            }
            ipToImsi := ipToImsi[u.staticIp := u.imsi];
          }
          InsertUser(u);
          return true;
      }
    }

    /** Reading at start-up, when both maps are empty. */
    method ReadDbFile(file: string) returns (ok: bool)
      requires Valid() && users == map[] && ipToImsi == map[]
      modifies this
      ensures Valid()
      ensures Loaded(ok, Records(), ipToImsi) == ReadFile(env, file)
    {
      hide SplitBy, ParseLine, AddEntry;
      var lines := SplitString(file, '\n');
      ok := true;
      while ok && lines != []
        invariant Valid()
        invariant ReadLines(env, Loaded(ok, Records(), ipToImsi), lines) == ReadFile(env, file)
        decreases |lines|
      {
        ok := AddLine(lines[0]);
        lines := lines[1..];
      }
    }

    lemma RecordsAre()
      requires Valid()
      ensures Records().Keys == users.Keys && forall i :: i in users ==> Records()[i] == users[i].Record()
    {
    }

    /** Writing at shutdown: the comment block, then the users in the order of the map. */
    method WriteDbFile(header: seq<string>) returns (file: string)
      requires Valid()
      ensures file == WriteDb(header, Records())
    {
      hide LineOf, LinesOf, Header, RecordsOf, Records, UeCtx.Record;
      RecordsAre();
      ghost var db := Records();
      file := Header(header);
      var remaining := users.Keys;
      while remaining != {}
        invariant remaining <= users.Keys
        invariant file + LinesOf(RecordsOf(db, remaining)) == WriteDb(header, db)
        decreases remaining
      {
        LeastExists(remaining);
        var i :| i in remaining && forall k :: k in remaining ==> i <= k;
        LeastWrittenFirst(db, remaining, i);
        Associative(file, LineOf(db[i]), LinesOf(RecordsOf(db, remaining - {i})));
        var line := WriteLine(users[i].Record());
        file := file + line;
        remaining := remaining - {i};
      }
      NothingWrittenLast(db);
    }

    /** The arrays a request for this user may write. */
    ghost function Footprint(imsi: nat): set<array<byte>>
      reads this
    {
      if imsi in users then {users[imsi].sqn, users[imsi].lastRand} else {}
    }

    /** The random challenge is an argument; the out arrays are the caller's own. */
    method GenAuthInfoAnswer(imsi: nat, challenge: B16, autn: array<byte>, rand: array<byte>, xres: array<byte>)
      returns (ok: bool, session: Bytes)
      requires Valid()
      requires autn.Length == 16 && rand.Length == 16 && xres.Length == 16
      requires autn != rand && autn != xres && rand != xres
      requires {autn, rand, xres} !! Footprint(imsi)
      modifies Footprint(imsi), autn, rand, xres
      ensures Valid()
      ensures ok <==> imsi in users
      ensures ok ==> var v := VectorOf(c, old(users[imsi].Auth()), challenge);
                     && rand[..] == v.rand && autn[..] == v.autn && xres[..8] == v.xres && session == v.kAsme
                     && users[imsi].Auth() == AfterVector(old(users[imsi].Auth()), challenge)
      ensures !ok ==> unchanged(autn, rand, xres)
      ensures forall i :: i in users && i != imsi && {autn, rand, xres} !! Footprint(i) ==>
                users[i].Auth() == old(users[i].Auth())
    {
      if imsi !in users {
        return false, [];
      }
      session := Serve(users[imsi], challenge, autn, rand, xres);
      ok := true;
    }

    /** A request served for one context: the vector for the current SQN, then the step to the next. */
    method Serve(ue: UeCtx, challenge: B16, autn: array<byte>, rand: array<byte>, xres: array<byte>)
      returns (session: Bytes)
      requires ue.Wf()
      requires autn.Length == 16 && rand.Length == 16 && xres.Length == 16
      requires autn != rand && autn != xres && rand != xres
      requires {autn, rand, xres} !! {ue.sqn, ue.lastRand}
      modifies autn, rand, xres, ue.sqn, ue.lastRand
      ensures var v := VectorOf(c, old(ue.Auth()), challenge);
              rand[..] == v.rand && autn[..] == v.autn && xres[..8] == v.xres && session == v.kAsme
      ensures ue.Auth() == AfterVector(old(ue.Auth()), challenge)
    {
      hide Next, ToBytes, Value, VectorOf;
      ghost var sqn: B6 := ue.sqn[..];
      match ue.algo {
        case XorAlgo => session := AnswerXor(ue, challenge, autn, rand, xres);
        case Milenage => session := AnswerMilenage(ue, challenge, autn, rand, xres);
      }
      IncrementSqn(ue.sqn, ue.sqn);
      BytesOfValue(ue.sqn[..]);
      assert ue.sqn[..] == NextBytes(sqn);
    }

    method AnswerXor(ue: UeCtx, challenge: B16, autn: array<byte>, rand: array<byte>, xres: array<byte>)
      returns (kAsme: Bytes)
      requires ue.Wf() && ue.algo == XorAlgo
      requires autn.Length == 16 && rand.Length == 16 && xres.Length == 16
      requires autn != rand && autn != xres && rand != xres
      requires {autn, rand, xres} !! {ue.sqn, ue.lastRand}
      modifies autn, rand, xres, ue.lastRand
      ensures var v := VectorOf(c, old(ue.Auth()), challenge);
              rand[..] == v.rand && autn[..] == v.autn && xres[..8] == v.xres && kAsme == v.kAsme
      ensures xres[..] == Xor(ue.key, challenge)
      ensures ue.lastRand[..] == challenge
    {
      var sqn: B6, amf := ue.sqn[..], ue.amf;
      XorVector(c, ue.Auth(), challenge);
      hide VectorOf, Xor, Rotate, XorKeys, Autn;
      Fill(rand, challenge);
      var xdout, keys := DeriveXor(ue.key, challenge);
      Fill(xres, xdout);
      var mac: B8 := XorBytes(xdout[..8], sqn + amf);
      assert mac == XorMac(ue.key, challenge, sqn, amf);
      hide XorMac;
      StoreAutn(autn, sqn, keys.ak, amf, mac);
      var masked: B6 := XorBytes(sqn, keys.ak);
      kAsme := c.kAsme(keys.ck, keys.ik, masked);
      StoreAutn(autn, sqn, keys.ak, amf, mac);
      Fill(ue.lastRand, challenge);
    }

    method AnswerMilenage(ue: UeCtx, challenge: B16, autn: array<byte>, rand: array<byte>, xres: array<byte>)
      returns (kAsme: Bytes)
      requires ue.Wf() && ue.algo == Milenage
      requires autn.Length == 16 && rand.Length == 16 && xres.Length == 16
      requires autn != rand && autn != xres && rand != xres
      requires {autn, rand, xres} !! {ue.sqn, ue.lastRand}
      modifies autn, rand, xres, ue.lastRand
      ensures var v := VectorOf(c, old(ue.Auth()), challenge);
              rand[..] == v.rand && autn[..] == v.autn && xres[..8] == v.xres && kAsme == v.kAsme
      ensures xres[8..] == old(xres[8..])
      ensures ue.lastRand[..] == challenge
    {
      var sqn: B6, amf := ue.sqn[..], ue.amf;
      Fill(rand, challenge);
      var keys := c.f2345(ue.key, ue.opc, challenge);
      Store(xres, 0, keys.res);
      var mac := c.f1(ue.key, ue.opc, challenge, sqn, amf);
      var masked: B6 := XorBytes(sqn, keys.ak);
      kAsme := c.kAsme(keys.ck, keys.ik, masked);
      StoreAutn(autn, sqn, keys.ak, amf, mac);
      Fill(ue.lastRand, challenge);
    }

    method ResyncSqnMilenage(ue: UeCtx, auts: Bytes)
      requires ue.Wf() && ue.algo == Milenage && |auts| >= 14
      modifies ue.sqn
      ensures ue.sqn[..] == Xor(auts[..6], c.f5star(ue.key, ue.opc, old(ue.lastRand[..])))
    {
      var ak := c.f5star(ue.key, ue.opc, ue.lastRand[..]);
      var sqnMs := XorBytes(auts[..6], ak);
      Fill(ue.sqn, sqnMs);
    }

    method ResyncSqn(imsi: nat, auts: Bytes) returns (ok: bool)
      requires Valid()
      requires |auts| >= 14
      modifies Footprint(imsi)
      ensures Valid()
      ensures ok <==> imsi in users
      ensures ok ==> users[imsi].Auth() == AfterResync(c, old(users[imsi].Auth()), auts)
      ensures forall i :: i in users && i != imsi ==> users[i].Auth() == old(users[i].Auth())
    {
      if imsi !in users {
        return false;
      }
      hide Xor, NextAfterResync, ToBytes, Value;
      var ue := users[imsi];
      match ue.algo {
        case XorAlgo =>
        case Milenage => ResyncSqnMilenage(ue, auts);
      }
      ghost var taken: B6 := ue.sqn[..];
      IncrementSeqAfterResync(ue.sqn);
      BytesOfValue(ue.sqn[..]);
      assert ue.sqn[..] == NextBytesAfterResync(taken);
      return true;
    }
  }

  /** Shutdown writes the users, the next start reads them into a new server. The users are the same ones,
      each with its counter where it stood, exactly if they were storable. */
  method StopAndStart(server: HssServer, header: seq<string>) returns (ok: bool, next: HssServer)
    requires server.Valid() && Keyed(server.Records()) && CommentLines(header)
    ensures next.Valid() && fresh(next)
    ensures (ok && SamePersisted(next.Records(), server.Records())) <==> Storable(server.env, server.Records())
  {
    hide SamePersisted, Storable, ReadFile, WriteDb, Separate;
    var file := server.WriteDbFile(header);
    RestartRestoresIff(server.env, header, server.Records());
    next := new HssServer(server.c, server.env);
    ok := next.ReadDbFile(file);
  }
}
