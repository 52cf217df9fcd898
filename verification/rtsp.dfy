/** The stream address of an iCSee-style camera. */
module Rtsp {
  import opened Strings
  import opened Models

  /** The address assembled from the textual form of its six parts. */
  function AssembleUrl(ip: string, port: string, username: string, password: string,
                       channel: string, stream: string): (url: string)
    ensures |url| == 57 + |ip| + |port| + |username| + |password| + |channel| + |stream|
  {
    "rtsp://" + ip + ":" + port + "/user=" + username + "&password=" + password
      + "&channel=" + channel + "&stream=" + stream + ".sdp?real_stream"
  }

  /** `rtsp://ip:port/user=U&password=P&channel=C&stream=S.sdp?real_stream`,
      with every part inserted verbatim (no percent-escaping) and the numbers
      in decimal. A reader that splits the address on '&' gets back the
      user, password, channel and stream, provided the address and the
      credentials hold no '&' themselves. */
  function BuildRtspUrl(ip: string, port: int, username: string, password: string,
                        channel: int, stream: int): (url: string)
    ensures IsPrefix("rtsp://" + ip + ":", url)
    ensures IsSuffix(".sdp?real_stream", url)
    ensures '&' !in ip && '&' !in username && '&' !in password ==>
              Split(url, '&')
                == ["rtsp://" + ip + ":" + IntToString(port) + "/user=" + username,
                    "password=" + password,
                    "channel=" + IntToString(channel),
                    "stream=" + IntToString(stream) + ".sdp?real_stream"]
  {
    var p, c, t := IntToString(port), IntToString(channel), IntToString(stream);
    AssembledShape(ip, p, username, password, c, t);
    IntToStringFree(port, '&');
    IntToStringFree(channel, '&');
    IntToStringFree(stream, '&');
    if '&' !in ip && '&' !in username && '&' !in password then
      AssembledFields(ip, p, username, password, c, t);
      AssembleUrl(ip, p, username, password, c, t)
    else
      AssembleUrl(ip, p, username, password, c, t)
  }

  /** The Python default arguments: port 554, admin / 12345678, channel 1,
      main stream. For an address without '&' the query fields carry exactly
      those defaults. */
  function BuildRtspUrlDefaults(ip: string): (url: string)
    ensures IsPrefix("rtsp://" + ip + ":554/", url)
    ensures '&' !in ip ==>
              Split(url, '&')
                == ["rtsp://" + ip + ":554/user=admin", "password=12345678",
                    "channel=1", "stream=0.sdp?real_stream"]
  {
    DefaultParts(ip);
    BuildRtspUrl(ip, 554, "admin", "12345678", 1, 0)
  }

  /** The default numbers in decimal. */
  lemma DefaultNumbers()
    ensures IntToString(554) == "554" && IntToString(1) == "1" && IntToString(0) == "0"
  {
    assert NatToString(55) == "55" by { assert NatToString(5) == "5"; }
  }

  /** The default arguments rendered as the address parts they become. */
  lemma DefaultParts(ip: string)
    ensures "rtsp://" + ip + ":" + IntToString(554) + "/user=" + "admin" == "rtsp://" + ip + ":554/user=admin"
    ensures "password=" + "12345678" == "password=12345678"
    ensures "channel=" + IntToString(1) == "channel=1"
    ensures "stream=" + IntToString(0) + ".sdp?real_stream" == "stream=0.sdp?real_stream"
    ensures IsPrefix("rtsp://" + ip + ":554/",
                     AssembleUrl(ip, IntToString(554), "admin", "12345678", IntToString(1), IntToString(0)))
  {
    DefaultNumbers();
    DefaultAuthority(ip);
  }

  lemma DefaultAuthority(ip: string)
    requires IntToString(554) == "554"
    ensures IsPrefix("rtsp://" + ip + ":554/",
                     AssembleUrl(ip, "554", "admin", "12345678", IntToString(1), IntToString(0)))
  {
    assert "rtsp://" + ip + ":" + "554" + "/" == "rtsp://" + ip + ":554/";
    AssembledAuthority(ip, "554", "admin", "12345678", IntToString(1), IntToString(0));
  }

  /** The camera's stream address carries its own connection fields: its
      address and port in the authority, and its user, password, channel and
      stream in the query fields, whenever none of them holds an '&'. */
  function BuildRtspUrlFromCamera(c: CameraModel): (url: string)
    ensures IsPrefix("rtsp://" + c.ip + ":" + IntToString(c.port) + "/", url)
    ensures '&' !in c.ip && '&' !in c.username && '&' !in c.password ==>
              Split(url, '&')
                == ["rtsp://" + c.ip + ":" + IntToString(c.port) + "/user=" + c.username,
                    "password=" + c.password,
                    "channel=" + IntToString(c.channel),
                    "stream=" + IntToString(c.stream) + ".sdp?real_stream"]
  {
    AssembledAuthority(c.ip, IntToString(c.port), c.username, c.password,
                       IntToString(c.channel), IntToString(c.stream));
    BuildRtspUrl(c.ip, c.port, c.username, c.password, c.channel, c.stream)
  }

  lemma AssembledShape(ip: string, port: string, username: string, password: string,
                       channel: string, stream: string)
    ensures IsPrefix("rtsp://" + ip + ":", AssembleUrl(ip, port, username, password, channel, stream))
    ensures IsSuffix(".sdp?real_stream", AssembleUrl(ip, port, username, password, channel, stream))
  {
    var url := AssembleUrl(ip, port, username, password, channel, stream);
    var head := "rtsp://" + ip + ":";
    var tail := ".sdp?real_stream";
    var mid := port + "/user=" + username + "&password=" + password
      + "&channel=" + channel + "&stream=" + stream;
    assert url == head + (mid + tail);
    assert url == (head + mid) + tail;
  }

  lemma AssembledAuthority(ip: string, port: string, username: string, password: string,
                           channel: string, stream: string)
    ensures IsPrefix("rtsp://" + ip + ":" + port + "/", AssembleUrl(ip, port, username, password, channel, stream))
  {
    var head := "rtsp://" + ip + ":" + port + "/";
    var rest := "user=" + username + "&password=" + password
      + "&channel=" + channel + "&stream=" + stream + ".sdp?real_stream";
    assert AssembleUrl(ip, port, username, password, channel, stream) == head + rest;
  }

  lemma AssembledFields(ip: string, port: string, username: string, password: string,
                        channel: string, stream: string)
    requires '&' !in ip && '&' !in port && '&' !in username && '&' !in password
    requires '&' !in channel && '&' !in stream
    ensures Split(AssembleUrl(ip, port, username, password, channel, stream), '&')
         == ["rtsp://" + ip + ":" + port + "/user=" + username,
             "password=" + password,
             "channel=" + channel,
             "stream=" + stream + ".sdp?real_stream"]
  {
    var f0 := "rtsp://" + ip + ":" + port + "/user=" + username;
    var f1 := "password=" + password;
    var f2 := "channel=" + channel;
    var g3 := "stream=" + stream + ".sdp?real_stream";
    assert "&password=" == ['&'] + "password=";
    assert "&channel=" == ['&'] + "channel=";
    assert "&stream=" == ['&'] + "stream=";
    assert AssembleUrl(ip, port, username, password, channel, stream)
        == f0 + ['&'] + f1 + ['&'] + f2 + ['&'] + g3;
    SplitFour(f0, f1, f2, g3, '&');
  }

  lemma AssembledRegroup(ip: string, port: string, username: string, password: string,
                         channel: string, stream: string)
    ensures AssembleUrl(ip, port, username, password, channel, stream)
         == ("rtsp://" + ip + ":" + port + "/user=")
          + (username + "&password=" + password)
          + ("&channel=" + channel + "&stream=" + stream + ".sdp?real_stream")
  {
  }

  /** Because credentials are not escaped, an '&' inside them can make two
      different credential pairs produce the same address. */
  lemma UnescapedCredentialsCollide(ip: string, port: int, channel: int, stream: int)
    ensures BuildRtspUrl(ip, port, "a", "b&password=c", channel, stream)
         == BuildRtspUrl(ip, port, "a&password=b", "c", channel, stream)
  {
    var p, c, t := IntToString(port), IntToString(channel), IntToString(stream);
    AssembledRegroup(ip, p, "a", "b&password=c", c, t);
    AssembledRegroup(ip, p, "a&password=b", "c", c, t);
    assert "a" + "&password=" + "b&password=c" == "a&password=b" + "&password=" + "c";
  }
}
