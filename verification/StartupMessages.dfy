/** The messages without a letter that open a connection (src/messages.cpp): the startup message, and
    the requests to cancel and to encrypt, as a server reads them. */
module StartupMessages {
  import opened Messages
  import opened DataRows
  import opened ParsingViews
  import opened RequestServer

  // ----- the startup message

  /** A setting: its name and its value. */
  datatype Setting = Setting(name: Text, value: Text)

  function EncodeSetting(s: Setting): Text {
    EncodeString(s.name) + EncodeString(s.value)
  }

  function EncodeSettings(ss: seq<Setting>): Text {
    if ss == [] then [] else EncodeSettings(ss[..|ss| - 1]) + EncodeSetting(ss[|ss| - 1])
  }

  /** The settings of a connection: the user, the database if there is one, and others. */
  function SettingsOf(user: Text, database: Option<Text>, params: seq<Setting>): seq<Setting> {
    [Setting(Ascii("user"), user)] +
    (match database case None => [] case Some(d) => [Setting(Ascii("database"), d)]) +
    params
  }

  /** The body behind the length: version 3.0, the settings and a NUL. */
  function StartupBody(user: Text, database: Option<Text>, params: seq<Setting>): Text {
    Bytes32(196608) + EncodeSettings(SettingsOf(user, database, params)) + [0]
  }

  lemma {:induction false} SettingsOne(ss: seq<Setting>, s: Setting)
    ensures EncodeSettings(ss + [s]) == EncodeSettings(ss) + EncodeSetting(s)
    ensures EncodeSettings([]) == []
  {
    assert (ss + [s])[..|ss|] == ss;
  }

  /** serialize: the length is stored last; it fails exactly if it does not fit. */
  method SerializeStartup(to: Text, user: Text, database: Option<Text>, params: seq<Setting>) returns (to': Text, failed: bool)
    ensures failed <==> |StartupBody(user, database, params)| + 4 > 0x7fff_ffff
    ensures !failed ==> to' == to + (Bytes32(|StartupBody(user, database, params)| + 4) + StartupBody(user, database, params))
  {
    hide Bytes32, EncodeSettings, EncodeSetting;
    to' := to + Room + Bytes32(196608);
    ghost var start := to';
    to' := to' + EncodeString(Ascii("user")) + EncodeString(user);
    ghost var ss := [Setting(Ascii("user"), user)];
    FirstSetting(ss[0]);
    assert to' == start + EncodeSettings(ss);
    if database.Some? {
      to' := to' + EncodeString(Ascii("database")) + EncodeString(database.value);
      SettingsOne(ss, Setting(Ascii("database"), database.value));
      SettingIs(Setting(Ascii("database"), database.value));
      ss := ss + [Setting(Ascii("database"), database.value)];
      assert to' == start + EncodeSettings(ss);
    }
    ghost var first := ss;
    assert first == SettingsOf(user, database, []);
    assert params[..0] == [] && first + params[..0] == first;
    for i := 0 to |params|
      invariant to' == start + EncodeSettings(first + params[..i])
    {
      SettingsOne(first + params[..i], params[i]);
      SettingIs(params[i]);
      assert first + params[..i + 1] == (first + params[..i]) + [params[i]];
      to' := to' + EncodeString(params[i].name) + EncodeString(params[i].value);
    }
    assert params[..|params|] == params && first + params == SettingsOf(user, database, params);
    to' := to' + [0];
    ghost var body := StartupBody(user, database, params);
    assert to' == to + Room + body;
    var length := |to'| - |to|;
    if length > 0x7fff_ffff {
      return to', true;
    }
    Patched(to, body, Bytes32(length));
    to' := to'[..|to|] + Bytes32(length) + to'[|to| + 4..];
    failed := false;
    assert to + Bytes32(length) + body == to + (Bytes32(length) + body);
  }

  lemma {:induction false} SettingIs(s: Setting)
    ensures EncodeSetting(s) == EncodeString(s.name) + EncodeString(s.value)
  {
  }

  lemma {:induction false} FirstSetting(s: Setting)
    ensures EncodeSettings([s]) == EncodeString(s.name) + EncodeString(s.value)
  {
    SettingsOne([], s);
    assert [] + [s] == [s];
    assert [] + EncodeSetting(s) == EncodeSetting(s);
  }

  /** make_startup_message: an empty name of a database is none. */
  function DatabaseOf(name: Text): Option<Text> {
    if name == [] then None else Some(name)
  }

  // ----- how a server reads it

  /** Names and values, up to an empty name. */
  function ReadSettings(s: Text): Read<seq<Setting>>
    decreases |s|
  {
    match ReadString(s)
    case Unreadable => Unreadable
    case Read(name, rest) =>
      if name == [] then Read([], rest)
      else match ReadString(rest)
        case Unreadable => Unreadable
        case Read(value, more) =>
          match ReadSettings(more)
          case Unreadable => Unreadable
          case Read(ss, end) => Read([Setting(name, value)] + ss, end)
  }

  datatype Opening = Version3(settings: seq<Setting>) | Cancel(pid: int, key: int) | Encrypt | Unknown

  /** The first message of a connection: its length, and what it asks for. */
  function ReadOpening(bytes: Text): Opening {
    if |bytes| < 8 || Int32(bytes, 0) != |bytes| then Unknown
    else
      var code := Int32(bytes, 4);
      if code == 3 * 65536 then
        match ReadSettings(bytes[8..])
        case Unreadable => Unknown
        case Read(ss, end) => if end == [] then Version3(ss) else Unknown
      else if code == 1234 * 65536 + 5678 && |bytes| == 16 then Cancel(Int32(bytes, 8), Int32(bytes, 12))
      else if code == 1234 * 65536 + 5679 && |bytes| == 8 then Encrypt
      else Unknown
  }

  predicate CleanSetting(s: Setting) {
    NoNul(s.name) && NoNul(s.value) && s.name != []
  }

  lemma {:induction false} SettingsHead(ss: seq<Setting>)
    requires ss != []
    ensures EncodeSettings(ss) == EncodeSetting(ss[0]) + EncodeSettings(ss[1..])
    decreases |ss|
  {
    hide EncodeSetting;
    if |ss| == 1 {
      assert ss[..0] == [] && ss[1..] == [];
    } else {
      var last := |ss| - 1;
      SettingsHead(ss[..last]);
      assert ss[..last][1..] == ss[1..][..last - 1];
      assert EncodeSettings(ss[1..]) == EncodeSettings(ss[1..][..last - 1]) + EncodeSetting(ss[last]);
    }
  }

  lemma {:induction false} SettingsAreRead(ss: seq<Setting>)
    requires forall i | 0 <= i < |ss| :: CleanSetting(ss[i])
    ensures ReadSettings(EncodeSettings(ss) + [0]) == Read(ss, [])
    decreases |ss|
  {
    hide ReadString, EncodeString, EncodeSettings, NoNul;
    if ss == [] {
      SettingsOne([], Setting([], []));
      NothingIsRead();
      assert [] + [0] == [0];
    } else {
      var s, rest := ss[0], EncodeSettings(ss[1..]) + [0];
      SettingsHead(ss);
      assert CleanSetting(ss[0]);
      assert EncodeSettings(ss) + [0] == EncodeString(s.name) + (EncodeString(s.value) + rest);
      StringReadBack(s.name, EncodeString(s.value) + rest);
      StringReadBack(s.value, rest);
      SettingsAreRead(ss[1..]);
      assert [s] + ss[1..] == ss;
    }
  }

  lemma {:induction false} NothingIsRead()
    ensures ReadString([0]) == Read([], [])
  {
    StringReadBack([], []);
    assert EncodeString([]) + [] == [0];
  }

  /** A server reads from the startup message the user, the database unless its name is empty, and the
      other settings, in this order. */
  lemma {:induction false} StartupIsRead(user: Text, database: Text, params: seq<Setting>)
    requires NoNul(user) && NoNul(database) && forall i | 0 <= i < |params| :: CleanSetting(params[i])
    requires |StartupBody(user, DatabaseOf(database), params)| + 4 <= 0x7fff_ffff
    ensures var body := StartupBody(user, DatabaseOf(database), params);
      ReadOpening(Bytes32(|body| + 4) + body) ==
        Version3([Setting(Ascii("user"), user)] + (if database == [] then [] else [Setting(Ascii("database"), database)]) + params)
  {
    hide Bytes32, Int32, EncodeSettings, ReadSettings, NoNul;
    var ss := SettingsOf(user, DatabaseOf(database), params);
    var body := StartupBody(user, DatabaseOf(database), params);
    var bytes := Bytes32(|body| + 4) + body;
    NamesAreClean();
    assert forall i | 0 <= i < |ss| :: CleanSetting(ss[i]);
    SettingsAreRead(ss);
    assert bytes == Bytes32(|body| + 4) + Bytes32(196608) + (EncodeSettings(ss) + [0]);
    OpeningLayout(|body| + 4, 196608, EncodeSettings(ss) + [0], bytes);
  }

  lemma {:induction false} NamesAreClean()
    ensures NoNul(Ascii("user")) && NoNul(Ascii("database")) && Ascii("user") != [] && Ascii("database") != []
  {
  }

  lemma {:induction false} OpeningLayout(length: int, code: int, rest: Text, bytes: Text)
    requires 0 <= length < 0x8000_0000 && 0 <= code < 0x8000_0000
    requires bytes == Bytes32(length) + Bytes32(code) + rest
    ensures |bytes| == 8 + |rest| && Int32(bytes, 0) == length && Int32(bytes, 4) == code && bytes[8..] == rest
  {
    hide Bytes32, Int32;
    var a, b := Bytes32(length), Bytes32(code);
    assert bytes == a + b + rest;
    assert bytes[0..4] == a && bytes[4..8] == b && bytes[8..] == rest;
    Int32Bytes(length, bytes, 0);
    Int32Bytes(code, bytes, 4);
  }

  // ----- the messages that are finished without a header

  /** finalize_message when no header was added: the offset of the header is the largest number, so
      that the size of the whole buffer is stored over its first four bytes. */
  function FinishedWithoutHeader(buffer: Text): Text
    requires 4 <= |buffer| < 0x8000_0000
  {
    Bytes32(|buffer|) + buffer[4..]
  }

  function CancelMessage(pid: int, key: int): Text
    requires -0x8000_0000 <= pid < 0x8000_0000 && -0x8000_0000 <= key < 0x8000_0000
  {
    Bytes32(16) + Bytes32(80877102) + Bytes32(pid) + Bytes32(key)
  }

  /** A cancel request that is the first thing in a buffer is read by a server; behind other bytes, it
      overwrites the first four of them, unless they are the size of the whole. */
  lemma {:induction false} CancelExactly(to: Text, pid: int, key: int)
    requires -0x8000_0000 <= pid < 0x8000_0000 && -0x8000_0000 <= key < 0x8000_0000 && |to| < 0x7000_0000
    ensures ReadOpening(FinishedWithoutHeader(CancelMessage(pid, key))) == Cancel(pid, key)
    ensures |to| >= 4 ==>
      (FinishedWithoutHeader(to + CancelMessage(pid, key)) == to + CancelMessage(pid, key) <==> to[..4] == Bytes32(|to| + 16))
  {
    hide Bytes32, Int32;
    var m := CancelMessage(pid, key);
    assert FinishedWithoutHeader(m) == m;
    assert m == Bytes32(16) + Bytes32(80877102) + (Bytes32(pid) + Bytes32(key));
    OpeningLayout(16, 80877102, Bytes32(pid) + Bytes32(key), m);
    assert m[8..12] == Bytes32(pid) && m[12..16] == Bytes32(key);
    Int32Bytes(pid, m, 8);
    Int32Bytes(key, m, 12);
    if |to| >= 4 {
      var all := to + m;
      assert all[..4] == to[..4] && FinishedWithoutHeader(all)[..4] == Bytes32(|to| + 16);
      assert all == all[..4] + all[4..];
    }
  }

  /** A request to encrypt loses its code: what is sent is its own size, which no server knows. */
  lemma {:induction false} EncryptIsLost()
    ensures FinishedWithoutHeader(Bytes32(80877103)) == [0, 0, 0, 4]
    ensures ReadOpening(FinishedWithoutHeader(Bytes32(80877103))) == Unknown
    ensures ReadOpening(Bytes32(8) + Bytes32(80877103)) == Encrypt
  {
    var b := Bytes32(8) + Bytes32(80877103);
    assert b + [] == b;
    OpeningLayout(8, 80877103, [], b);
  }
}
