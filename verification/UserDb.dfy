/** The user database file of the home subscriber server: what is written for a set of users and what
    reading a file makes of it. */
module UserDb {
  import opened AuthVectors
  import opened UserDbText

  const NO_IP := "0.0.0.0"

  /** The part of a user that the file knows. IMSI and QCI are 64 and 16 bits wide. */
  datatype UserRecord = UserRecord(
    name: string, algo: Algo, imsi: nat, key: B16, opConfigured: bool, op: B16, opc: B16,
    amf: B2, sqn: B6, qci: nat, staticIp: string)

  predicate Typed(u: UserRecord) {
    u.imsi < TWO64 && u.qci < 0x10000
  }

  /** What reading depends on besides the file: how OPc is derived, and what uninitialised memory and
      malformed hexadecimal text leave behind. */
  datatype Env = Env(computeOpc: (B16, B16) -> B16, leftover: Leftover, blank: B16)

  /** The operator code is written only if it is configured. */
  function Persisted(u: UserRecord): UserRecord {
    if u.opConfigured then u else u.(op := [0, 0, 0, 0, 0, 0, 0, 0, 0, 0, 0, 0, 0, 0, 0, 0])
  }

  // ---------- writing ----------

  function Fields(u: UserRecord): (f: seq<string>)
    ensures |f| == 10
  {
    [u.name,
     if u.algo == XorAlgo then "xor" else "mil",
     Padded(u.imsi, 15),
     HexString(u.key),
     if u.opConfigured then "op" else "opc",
     HexString(if u.opConfigured then u.op else u.opc),
     HexString(u.amf),
     HexString(u.sqn),
     Padded(u.qci, 0),
     if u.staticIp != NO_IP then u.staticIp else "dynamic"]
  }

  /** Fields separated by commas. */
  function Joined(f: seq<string>): string
    requires f != []
  {
    if |f| == 1 then f[0] else f[0] + "," + Joined(f[1..])
  }

  function LineOf(u: UserRecord): string {
    Joined(Fields(u)) + "\n"
  }

  function LinesOf(us: seq<UserRecord>): string {
    if us == [] then "" else LineOf(us[0]) + LinesOf(us[1..])
  }

  /** The comment block at the top: any lines starting with a hash. */
  ghost predicate CommentLines(lines: seq<string>) {
    forall i :: 0 <= i < |lines| ==> lines[i] != "" && lines[i][0] == '#' && '\n' !in lines[i]
  }

  function Header(lines: seq<string>): string {
    if lines == [] then "" else lines[0] + "\n" + Header(lines[1..])
  }

  // ---------- reading ----------

  datatype Entry =
    | Ignored
    | Rejected
    | Accepted(user: UserRecord, fixedIp: bool)

  function ParseFields(env: Env, f: seq<string>): Entry
    requires |f| == 10
  {
    if f[1] != "xor" && f[1] != "mil" then Rejected
    else if f[4] != "op" && f[4] != "opc" then Rejected
    else
      var key: B16 := ReadHex(f[3], 16, env.leftover);
      var code: B16 := ReadHex(f[5], 16, env.leftover);
      var fixedIp := f[9] != "dynamic";
      if fixedIp && !DottedQuad(f[9]) then Rejected
      else
        var opConfigured := f[4] == "op";
        Accepted(
          UserRecord(f[0], if f[1] == "xor" then XorAlgo else Milenage, StrToUll(f[2]), key, opConfigured,
                     if opConfigured then code else env.blank,
                     if opConfigured then env.computeOpc(key, code) else code,
                     ReadHex(f[6], 2, env.leftover), ReadHex(f[7], 6, env.leftover), StrToU16(f[8]),
                     if fixedIp then f[9] else NO_IP),
          fixedIp)
  }

  function ParseLine(env: Env, line: string): Entry {
    if line == "" || line[0] == '#' then Ignored
    else if |SplitBy(line, ',')| != 10 then Rejected
    else ParseFields(env, SplitBy(line, ','))
  }

  /** The two maps that reading fills, and whether it went through. */
  datatype Loaded = Loaded(ok: bool, users: map<nat, UserRecord>, ips: map<string, nat>)

  /** A static address may be taken only once; of two users with one IMSI the first stays. */
  function AddEntry(l: Loaded, e: Entry): Loaded {
    match e
    case Ignored => l
    case Rejected => l.(ok := false)
    case Accepted(u, fixedIp) =>
      if fixedIp && u.staticIp in l.ips then l.(ok := false)
      else
        Loaded(l.ok,
               if u.imsi in l.users then l.users else l.users[u.imsi := u],
               if fixedIp then l.ips[u.staticIp := u.imsi] else l.ips)
  }

  /** Reading stops at the first line that is refused. */
  function ReadLines(env: Env, l: Loaded, lines: seq<string>): Loaded
    decreases |lines|
  {
    if lines == [] || !l.ok then l else ReadLines(env, AddEntry(l, ParseLine(env, lines[0])), lines[1..])
  }

  function ReadFile(env: Env, file: string): Loaded {
    ReadLines(env, Loaded(true, map[], map[]), SplitBy(file, '\n'))
  }

  // ---------- one line there and back ----------

  predicate CleanName(name: string) {
    ',' !in name && '\n' !in name && (name != "" ==> name[0] != '#')
  }

  predicate IpOk(ip: string) {
    ip == NO_IP || DottedQuad(ip)
  }

  /** What a record must satisfy to survive in the file. */
  predicate RecordOk(env: Env, u: UserRecord) {
    CleanName(u.name) && IpOk(u.staticIp) && (u.opConfigured ==> u.opc == env.computeOpc(u.key, u.op))
  }

  predicate Clean(s: string) {
    ',' !in s && '\n' !in s
  }

  lemma DigitsAreClean(s: string)
    requires AllDigits(s)
    ensures Clean(s)
  {
  }

  lemma FieldsAreClean(env: Env, u: UserRecord)
    requires RecordOk(env, u)
    ensures forall i :: 0 <= i < 10 ==> Clean(Fields(u)[i])
    ensures Fields(u)[9] != ""
  {
    hide HexString, Padded, DottedQuad;
    DigitsAreClean(Padded(u.imsi, 15));
    DigitsAreClean(Padded(u.qci, 0));
    HexIsClean(u.key);
    HexIsClean(if u.opConfigured then u.op else u.opc);
    HexIsClean(u.amf);
    HexIsClean(u.sqn);
    if u.staticIp != NO_IP {
      QuadIsClean(u.staticIp);
    }
  }

  lemma {:induction false} SplitJoined(f: seq<string>)
    requires f != [] && f[|f| - 1] != "" && forall i :: 0 <= i < |f| ==> Clean(f[i])
    ensures SplitBy(Joined(f), ',') == f
  {
    if |f| == 1 {
      SplitLast(f[0], ',');
    } else {
      SplitJoined(f[1..]);
      SplitFirst(f[0], ',', Joined(f[1..]));
      assert f[0] + "," + Joined(f[1..]) == f[0] + [','] + Joined(f[1..]);
    }
  }

  lemma {:induction false} JoinedHasNoNewline(f: seq<string>)
    requires f != [] && forall i :: 0 <= i < |f| ==> Clean(f[i])
    ensures '\n' !in Joined(f)
  {
    if |f| > 1 {
      JoinedHasNoNewline(f[1..]);
    }
  }

  /** What reading makes of a sound record: everything but an operator code that was not written. */
  function Restored(env: Env, u: UserRecord): UserRecord {
    if u.opConfigured then u else u.(op := env.blank)
  }

  lemma RestoredPersists(env: Env, u: UserRecord)
    ensures Persisted(Restored(env, u)) == Persisted(u)
    ensures Restored(env, u).imsi == u.imsi && Restored(env, u).staticIp == u.staticIp
  {
  }

  /** The words in the file tell the cases apart. */
  lemma WordsComeBack(u: UserRecord)
    requires IpOk(u.staticIp)
    ensures var f := Fields(u);
            && f[0] == u.name
            && (f[1] == "xor" || f[1] == "mil") && (f[1] == "xor" <==> u.algo == XorAlgo)
            && (f[4] == "op" || f[4] == "opc") && (f[4] == "op" <==> u.opConfigured)
            && (f[9] == "dynamic" <==> u.staticIp == NO_IP)
            && (f[9] != "dynamic" ==> f[9] == u.staticIp && DottedQuad(u.staticIp))
  {
    if u.staticIp != NO_IP {
      QuadIsClean(u.staticIp);
    }
    hide HexString, Padded, DottedQuad;
  }

  /** Reading the fields of a sound record gives the record back. */
  lemma FieldsRoundTrip(env: Env, u: UserRecord)
    requires Typed(u) && RecordOk(env, u)
    ensures ParseFields(env, Fields(u)) == Accepted(Restored(env, u), u.staticIp != NO_IP)
  {
    hide ReadHex, HexString, Padded, StrToUll, StrToU16, DottedQuad, Fields;
    WordsComeBack(u);
    NumbersAndBytes(u);
    NumbersComeBack(env, u);
    BytesComeBack(env, u);
  }

  lemma NumbersAndBytes(u: UserRecord)
    ensures var f := Fields(u);
            && f[2] == Padded(u.imsi, 15) && f[3] == HexString(u.key) && f[6] == HexString(u.amf)
            && f[7] == HexString(u.sqn) && f[8] == Padded(u.qci, 0)
            && f[5] == HexString(if u.opConfigured then u.op else u.opc)
  {
    hide HexString, Padded;
  }

  lemma NumbersComeBack(env: Env, u: UserRecord)
    requires Typed(u)
    ensures StrToUll(Padded(u.imsi, 15)) == u.imsi && StrToU16(Padded(u.qci, 0)) == u.qci
  {
    ReadPadded(u.imsi, 15);
    ReadPadded(u.qci, 0);
  }

  lemma BytesComeBack(env: Env, u: UserRecord)
    ensures ReadHex(HexString(u.key), 16, env.leftover) == u.key
    ensures ReadHex(HexString(u.op), 16, env.leftover) == u.op
    ensures ReadHex(HexString(u.opc), 16, env.leftover) == u.opc
    ensures ReadHex(HexString(u.amf), 2, env.leftover) == u.amf
    ensures ReadHex(HexString(u.sqn), 6, env.leftover) == u.sqn
  {
    HexRoundTrip(u.key, env.leftover);
    HexRoundTrip(u.op, env.leftover);
    HexRoundTrip(u.opc, env.leftover);
    HexRoundTrip(u.amf, env.leftover);
    HexRoundTrip(u.sqn, env.leftover);
  }

  lemma LineRoundTrip(env: Env, u: UserRecord)
    requires Typed(u) && RecordOk(env, u)
    ensures var line := Joined(Fields(u));
            && '\n' !in line && line != ""
            && ParseLine(env, line) == ParseFields(env, Fields(u))
  {
    var f := Fields(u);
    FieldsAreClean(env, u);
    SplitJoined(f);
    JoinedHasNoNewline(f);
    assert Joined(f) == f[0] + "," + Joined(f[1..]);
    assert f[0] == u.name;
    hide Fields, SplitBy, ParseFields;
  }
  // ---------- the file format ----------

  /** A line column by column, split at its commas: name, algorithm, IMSI filled up to 15 digits, key, kind of
      operator code, that code, AMF, SQN, QCI and address. */
  lemma LineColumns(env: Env, u: UserRecord)
    requires RecordOk(env, u)
    ensures var f := SplitBy(Joined(Fields(u)), ',');
            && |f| == 10
            && f[0] == u.name
            && f[1] == (if u.algo == Milenage then "mil" else "xor")
            && f[2] == Padded(u.imsi, 15)
            && f[3] == HexString(u.key)
            && f[4] == (if u.opConfigured then "op" else "opc")
            && f[5] == HexString(if u.opConfigured then u.op else u.opc)
            && f[6] == HexString(u.amf)
            && f[7] == HexString(u.sqn)
            && f[8] == Padded(u.qci, 0)
            && f[9] == (if u.staticIp == NO_IP then "dynamic" else u.staticIp)
  {
    hide SplitBy, Joined, HexString, Padded, RecordOk;
    FieldsAreClean(env, u);
    SplitJoined(Fields(u));
  }
}
