/** The discovery page of the browser: the Wi-Fi QR payload handed to a
    camera, and the one-click add of a discovered camera. */
module DiscoveryPage {
  import opened Wrappers
  import opened Strings
  import opened Models
  import Discovery

  // ---------------------------------------------------------------- escaping

  /** `s.replace(/c/g, rep)`: every `c` replaced by `rep`. */
  function ReplaceAll(s: string, c: char, rep: string): (r: string)
    ensures c !in s ==> r == s
    ensures c !in rep ==> c !in r
    decreases |s|
  {
    if |s| == 0 then ""
    else (if s[0] == c then rep else [s[0]]) + ReplaceAll(s[1..], c, rep)
  }

  lemma {:induction false} ReplaceAllAppend(a: string, b: string, c: char, rep: string)
    ensures ReplaceAll(a + b, c, rep) == ReplaceAll(a, c, rep) + ReplaceAll(b, c, rep)
    decreases |a|
  {
    if |a| == 0 {
      assert a + b == b;
    } else {
      assert (a + b)[0] == a[0] && (a + b)[1..] == a[1..] + b;
      ReplaceAllAppend(a[1..], b, c, rep);
    }
  }

  /** The escape of `generateWifiQr`: ';' then ':' get a backslash in front,
      and only then every backslash is doubled, the inserted ones included. */
  function WifiEscape(s: string): string {
    ReplaceAll(ReplaceAll(ReplaceAll(s, ';', "\\;"), ':', "\\:"), '\\', "\\\\")
  }

  /** What each character turns into under the three passes. */
  function EscapeChar(c: char): (r: string)
    ensures |r| >= 1 && r[0] != ';' && r[0] != ':'
  {
    if c == ';' then "\\\\;"
    else if c == ':' then "\\\\:"
    else if c == '\\' then "\\\\"
    else [c]
  }

  /** The per-character reference: each character's replacement, in order. */
  function EscapeEach(s: string): (r: string)
    ensures |s| > 0 ==> |r| > 0 && r[0] != ';' && r[0] != ':'
    decreases |s|
  {
    if |s| == 0 then "" else EscapeChar(s[0]) + EscapeEach(s[1..])
  }

  lemma WifiEscapeAppend(a: string, b: string)
    ensures WifiEscape(a + b) == WifiEscape(a) + WifiEscape(b)
  {
    ReplaceAllAppend(a, b, ';', "\\;");
    var a1, b1 := ReplaceAll(a, ';', "\\;"), ReplaceAll(b, ';', "\\;");
    ReplaceAllAppend(a1, b1, ':', "\\:");
    var a2, b2 := ReplaceAll(a1, ':', "\\:"), ReplaceAll(b1, ':', "\\:");
    ReplaceAllAppend(a2, b2, '\\', "\\\\");
  }

  lemma WifiEscapeOne(c: char)
    ensures WifiEscape([c]) == EscapeChar(c)
  {
    assert ReplaceAll([c], ';', "\\;") == (if c == ';' then "\\;" else [c]);
    if c == ';' {
      assert "\\;"[1..] == ";";
      assert ReplaceAll("\\;", ':', "\\:") == "\\;";
      assert ReplaceAll(";", '\\', "\\\\") == ";";
      assert ReplaceAll("\\;", '\\', "\\\\") == "\\\\;";
    } else if c == ':' {
      assert "\\:"[1..] == ":";
      assert ReplaceAll(":", '\\', "\\\\") == ":";
      assert ReplaceAll("\\:", '\\', "\\\\") == "\\\\:";
    }
  }

  /** The three passes equal the per-character replacement: a ';' or ':'
      becomes two backslashes and itself, a backslash becomes two. */
  lemma {:induction false} WifiEscapeIsPerChar(s: string)
    ensures WifiEscape(s) == EscapeEach(s)
    decreases |s|
  {
    if |s| > 0 {
      WifiEscapeIsPerChar(s[1..]);
      assert s == [s[0]] + s[1..];
      WifiEscapeAppend([s[0]], s[1..]);
      WifiEscapeOne(s[0]);
    }
  }

  function Count(s: string, c: char): nat
    decreases |s|
  {
    if |s| == 0 then 0 else (if s[0] == c then 1 else 0) + Count(s[1..], c)
  }

  /** Two extra characters per ';' or ':', one per backslash. */
  lemma {:induction false} WifiEscapeLength(s: string)
    ensures |WifiEscape(s)| == |s| + 2 * Count(s, ';') + 2 * Count(s, ':') + Count(s, '\\')
    decreases |s|
  {
    WifiEscapeIsPerChar(s);
    if |s| > 0 {
      WifiEscapeLength(s[1..]);
      WifiEscapeIsPerChar(s[1..]);
    }
  }

  /** Text without ';', ':' or backslash is left alone. */
  lemma WifiEscapeIdentity(s: string)
    requires ';' !in s && ':' !in s && '\\' !in s
    ensures WifiEscape(s) == s
  {
  }

  // ---------------------------------------------------------------- reading a payload

  /** One field as a reader of the `WIFI:` QR format sees it: its value and
      the text after the ';' that ends it. */
  datatype Field = Field(value: string, rest: string)

  /** `c` in front of the value of a field that was read, if any. */
  function Prepend(c: string, r: Option<Field>): Option<Field> {
    match r
    case None => None
    case Some(f) => Some(Field(c + f.value, f.rest))
  }

  /** The field reader of the `WIFI:` format: a backslash makes the next
      character literal, and the first ';' that is not so escaped ends the
      field. Nothing when the text ends before such a ';'. */
  function ReadField(t: string): (r: Option<Field>)
    ensures r.Some? ==> |r.value.rest| < |t|
    decreases |t|
  {
    if |t| == 0 then None
    else if t[0] == ';' then Some(Field("", t[1..]))
    else if t[0] == '\\' && |t| >= 2 then Prepend([t[1]], ReadField(t[2..]))
    else Prepend([t[0]], ReadField(t[1..]))
  }

  /** How the reader takes the escape of one character followed by `t`. */
  lemma ReadEscapedChar(c: char, t: string)
    ensures c != ';' && c != ':' ==> ReadField(EscapeChar(c) + t) == Prepend([c], ReadField(t))
    ensures c == ';' ==> ReadField(EscapeChar(c) + t) == Some(Field("\\", t))
    ensures c == ':' ==> ReadField(EscapeChar(c) + t) == Prepend("\\:", ReadField(t))
  {
    var e := EscapeChar(c) + t;
    if c == ';' {
      assert e == ['\\', '\\'] + ([c] + t);
      assert e[2..] == [c] + t;
      assert ([c] + t)[1..] == t;
      assert "\\" + "" == "\\";
    } else if c == ':' {
      assert e == ['\\', '\\'] + ([c] + t);
      assert e[2..] == [c] + t;
      assert ([c] + t)[1..] == t;
      match ReadField(t)
      case None =>
      case Some(f) => assert "\\" + (":" + f.value) == "\\:" + f.value;
    } else if c == '\\' {
      assert e == ['\\', '\\'] + t;
      assert e[2..] == t;
    } else {
      assert e == [c] + t;
      assert e[1..] == t;
    }
  }

  lemma EscapeEachCons(s: string, rest: string)
    requires |s| > 0
    ensures EscapeEach(s) + ";" + rest == EscapeChar(s[0]) + (EscapeEach(s[1..]) + ";" + rest)
  {
    var x, y := EscapeChar(s[0]), EscapeEach(s[1..]);
    assert EscapeEach(s) == x + y;
    AppendAssoc(x, y, ";", rest);
  }

  lemma AppendAssoc(x: string, y: string, z: string, w: string)
    ensures x + y + z + w == x + (y + z + w)
  {
  }

  /** A text without ';' or ':' survives the escape: the reader gets it back
      whole, and the text after the closing ';' is untouched. */
  lemma {:induction false} ReadEscapedPlain(s: string, rest: string)
    requires ';' !in s && ':' !in s
    ensures ReadField(EscapeEach(s) + ";" + rest) == Some(Field(s, rest))
    decreases |s|
  {
    if |s| == 0 {
      assert EscapeEach(s) + ";" + rest == [';'] + rest;
      assert ([';'] + rest)[1..] == rest;
    } else {
      ReadEscapedPlain(s[1..], rest);
      EscapeEachCons(s, rest);
      ReadEscapedChar(s[0], EscapeEach(s[1..]) + ";" + rest);
      assert [s[0]] + s[1..] == s;
    }
  }

  /** A text with a ';' or ':' does not survive: whatever the reader gets is
      not the text, because at the first such character it reads a literal
      backslash instead. */
  lemma {:induction false} ReadEscapedSpecial(s: string, rest: string)
    requires ';' in s || ':' in s
    ensures ReadField(EscapeEach(s) + ";" + rest).Some? ==>
              ReadField(EscapeEach(s) + ";" + rest).value.value != s
    decreases |s|
  {
    var t := EscapeEach(s[1..]) + ";" + rest;
    EscapeEachCons(s, rest);
    ReadEscapedChar(s[0], t);
    if s[0] != ';' && s[0] != ':' {
      assert s == [s[0]] + s[1..];
      ReadEscapedSpecial(s[1..], rest);
    }
  }

  /** How the reader takes a field written with the escape of
      `generateWifiQr`: the text itself when it holds neither ';' nor ':',
      and otherwise something else or nothing. */
  lemma WifiFieldRead(s: string, rest: string)
    ensures ';' !in s && ':' !in s ==> ReadField(WifiEscape(s) + ";" + rest) == Some(Field(s, rest))
    ensures (';' in s || ':' in s) && ReadField(WifiEscape(s) + ";" + rest).Some? ==>
              ReadField(WifiEscape(s) + ";" + rest).value.value != s
  {
    WifiEscapeIsPerChar(s);
    if ';' !in s && ':' !in s {
      ReadEscapedPlain(s, rest);
    } else {
      ReadEscapedSpecial(s, rest);
    }
  }

  /** A field written with the escape of `generateWifiQr` reads back as the
      original text exactly when the text holds neither ';' nor ':'. */
  lemma WifiFieldRoundTrip(s: string, rest: string)
    ensures ReadField(WifiEscape(s) + ";" + rest) == Some(Field(s, rest)) <==> ';' !in s && ':' !in s
  {
    WifiFieldRead(s, rest);
  }

  /** The doubled backslash in front of ';' escapes itself, so the ';' ends
      the field early: a password ";" is read as a single backslash. */
  lemma WifiEscapeMisreadsSemicolon()
    ensures ReadField(WifiEscape(";") + ";") == Some(Field("\\", ";"))
  {
    WifiEscapeOne(';');
    ReadEscapedChar(';', ";");
  }

  /** The network name and password a reader of the `WIFI:` format takes
      from a payload laid out as `generateWifiQr` writes it. */
  datatype Credentials = Credentials(ssid: string, password: string)

  function ReadPayload(t: string): Option<Credentials> {
    if !IsPrefix("WIFI:S:", t) then None else ReadAfterSsid(ReadField(t[7..]))
  }

  function ReadAfterSsid(r: Option<Field>): (c: Option<Credentials>)
    ensures c.Some? ==> r.Some? && c.value.ssid == r.value.value
  {
    match r
    case None => None
    case Some(f) => ReadPassword(f.value, f.rest)
  }

  function ReadPassword(ssid: string, t: string): (c: Option<Credentials>)
    ensures c.Some? ==> c.value.ssid == ssid
  {
    if !IsPrefix("T:WPA;P:", t) then None else ReadClose(ssid, ReadField(t[8..]))
  }

  function ReadClose(ssid: string, r: Option<Field>): (c: Option<Credentials>)
    ensures c.Some? ==> c.value.ssid == ssid && r.Some? && c.value.password == r.value.value
  {
    match r
    case None => None
    case Some(p) => if p.rest == ";" then Some(Credentials(ssid, p.value)) else None
  }

  /** `generateWifiQr` in the standard format: nothing when either field is
      empty, otherwise the `WIFI:` payload with both fields escaped. */
  function WifiPayload(ssid: string, password: string): (r: Option<string>)
    ensures r.None? <==> ssid == "" || password == ""
    ensures r.Some? ==> IsPrefix("WIFI:S:", r.value) && IsSuffix(";;", r.value)
  {
    if ssid == "" || password == "" then None
    else Some("WIFI:S:" + WifiEscape(ssid) + ";T:WPA;P:" + WifiEscape(password) + ";;")
  }

  /** Read back, the payload gives the network name and password that went
      in exactly when neither of them holds a ';' or ':'. */
  lemma WifiPayloadFields(ssid: string, password: string)
    ensures WifiPayload(ssid, password).Some? ==>
              (ReadPayload(WifiPayload(ssid, password).value) == Some(Credentials(ssid, password)) <==>
                 ';' !in ssid && ':' !in ssid && ';' !in password && ':' !in password)
  {
    if ssid != "" && password != "" {
      var es, ep := WifiEscape(ssid), WifiEscape(password);
      var tail := "T:WPA;P:" + ep + ";;";
      var t := "WIFI:S:" + es + ";T:WPA;P:" + ep + ";;";
      assert WifiPayload(ssid, password) == Some(t);
      PayloadLayout(es, ep);
      assert ReadPayload(t) == ReadAfterSsid(ReadField(es + ";" + tail));
      WifiFieldRead(ssid, tail);
      WifiFieldRead(password, ";");
      if ';' !in ssid && ':' !in ssid {
        assert ReadPayload(t) == ReadPassword(ssid, tail);
        assert ReadPayload(t) == ReadClose(ssid, ReadField(ep + ";" + ";"));
      }
    }
  }

  lemma PayloadLayout(es: string, ep: string)
    ensures IsPrefix("WIFI:S:", "WIFI:S:" + es + ";T:WPA;P:" + ep + ";;")
    ensures ("WIFI:S:" + es + ";T:WPA;P:" + ep + ";;")[7..] == es + ";" + ("T:WPA;P:" + ep + ";;")
    ensures IsPrefix("T:WPA;P:", "T:WPA;P:" + ep + ";;")
    ensures ("T:WPA;P:" + ep + ";;")[8..] == ep + ";" + ";"
  {
    assert "WIFI:S:" + es + ";T:WPA;P:" + ep + ";;" == "WIFI:S:" + (es + ";" + ("T:WPA;P:" + ep + ";;"));
    assert "T:WPA;P:" + ep + ";;" == "T:WPA;P:" + (ep + ";" + ";");
  }

  /** For plain network names and passwords the payload carries them verbatim. */
  lemma PlainPayload(ssid: string, password: string)
    requires ssid != "" && password != ""
    requires ';' !in ssid && ':' !in ssid && '\\' !in ssid
    requires ';' !in password && ':' !in password && '\\' !in password
    ensures WifiPayload(ssid, password) == Some("WIFI:S:" + ssid + ";T:WPA;P:" + password + ";;")
  {
    WifiEscapeIdentity(ssid);
    WifiEscapeIdentity(password);
  }

  // ---------------------------------------------------------------- quick add

  /** `quickAdd`: the add request for a discovered camera, named
      "Camera " and the last dot field of the ip when it has no name. */
  function QuickAdd(ip: string, port: int, name: string): (a: CameraAdd)
    ensures a.ip == ip && a.port == port
    ensures name != "" ==> a.name == name
    ensures a.username == "admin" && a.password == "" && a.channel == 1 && a.stream == 0
    ensures a.brand == "auto" && a.codec == "auto"
  {
    CameraAdd(if name != "" then name else "Camera " + LastField(ip, '.'),
              ip, port, "admin", "", 1, 0, "auto", "auto")
  }

  /** Without a name, quick add names the camera the way the port scan does. */
  lemma QuickAddNamesLikeScan(ip: string, port: int)
    ensures QuickAdd(ip, port, "").name == Discovery.ScanName(ip)
  {
  }

  /** For a scanned camera the default name is "Camera " and its host number. */
  lemma QuickAddOfHost(subnet: string, host: nat, port: int)
    ensures QuickAdd(Discovery.HostIp(subnet, host), port, "").name == "Camera " + NatToString(host)
  {
    Discovery.ScanNameOfHost(subnet, host);
  }
}
