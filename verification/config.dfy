/** The camera-list operations of the configuration store, on an in-memory
    configuration value: every operation takes the configuration and returns
    the new one (persisting it to disk is not part of this model). */
module Config {
  import opened Wrappers
  import opened Strings
  import opened Ordering
  import opened Models

  // ------------------------------------------------------------ lookup

  /** Position of the first camera with the given id, or `|cams|` when none has it. */
  function FindIndex(cams: seq<CameraModel>, id: string): (i: nat)
    ensures i <= |cams|
    ensures i < |cams| ==> cams[i].id == id
    ensures forall j :: 0 <= j < i ==> cams[j].id != id
    decreases |cams|
  {
    if |cams| == 0 then 0
    else if cams[0].id == id then 0
    else 1 + FindIndex(cams[1..], id)
  }

  predicate HasId(cams: seq<CameraModel>, id: string) {
    exists j :: 0 <= j < |cams| && cams[j].id == id
  }

  /** The first camera carrying `id`, or None. */
  function GetCamera(config: AppConfig, id: string): (r: Option<CameraModel>)
    ensures r.None? <==> !HasId(config.cameras, id)
    ensures r.Some? ==> r.value.id == id && r.value in config.cameras
    ensures r.Some? ==> (exists i :: (0 <= i < |config.cameras| && config.cameras[i] == r.value &&
                          forall j :: 0 <= j < i ==> config.cameras[j].id != id))
  {
    var i := FindIndex(config.cameras, id);
    if i < |config.cameras| then Some(config.cameras[i]) else None
  }

  // ------------------------------------------------------------ add / remove

  /** Appends the camera; nothing else in the configuration changes. */
  function AddCamera(config: AppConfig, camera: CameraModel): (r: AppConfig)
    ensures |r.cameras| == |config.cameras| + 1
    ensures r.cameras[..|config.cameras|] == config.cameras
    ensures r.cameras[|config.cameras|] == camera
    ensures r.(cameras := config.cameras) == config
  {
    config.(cameras := config.cameras + [camera])
  }

  /** The list comprehension `[c for c in cams if c.id != id]`. */
  function RemoveId(cams: seq<CameraModel>, id: string): (r: seq<CameraModel>)
    ensures forall c :: c in r <==> c in cams && c.id != id
    ensures IsSubsequence(r, cams)
    decreases |cams|
  {
    if |cams| == 0 then []
    else if cams[0].id != id then [cams[0]] + RemoveId(cams[1..], id)
    else RemoveId(cams[1..], id)
  }

  /** Each camera without the id is kept as often as it occurs; each with it is dropped. */
  lemma {:induction false} RemoveIdCount(cams: seq<CameraModel>, id: string, c: CameraModel)
    ensures multiset(RemoveId(cams, id))[c] == if c.id != id then multiset(cams)[c] else 0
    decreases |cams|
  {
    if |cams| > 0 {
      RemoveIdCount(cams[1..], id, c);
      assert cams == [cams[0]] + cams[1..];
    }
  }

  /** Drops every camera carrying `id`, keeping the others in order. */
  function RemoveCamera(config: AppConfig, id: string): (r: AppConfig)
    ensures forall c :: c in r.cameras <==> c in config.cameras && c.id != id
    ensures forall c :: multiset(r.cameras)[c] == if c.id != id then multiset(config.cameras)[c] else 0
    ensures !HasId(r.cameras, id)
    ensures IsSubsequence(r.cameras, config.cameras)
    ensures r.(cameras := config.cameras) == config
  {
    var kept := RemoveId(config.cameras, id);
    assert forall j :: 0 <= j < |kept| ==> kept[j] in kept;
    forall c ensures multiset(kept)[c] == if c.id != id then multiset(config.cameras)[c] else 0 {
      RemoveIdCount(config.cameras, id, c);
    }
    config.(cameras := kept)
  }

  // ------------------------------------------------------------ update

  /** Field values to merge into a camera record; `None` means "key absent or
      None", which the merge skips. The id is never merged. */
  datatype Patch = Patch(
    name: Option<string>,
    ip: Option<string>,
    port: Option<int>,
    username: Option<string>,
    password: Option<string>,
    channel: Option<int>,
    stream: Option<int>,
    brand: Option<string>,
    codec: Option<string>,
    enabled: Option<bool>,
    status: Option<CameraStatus>)

  /** The patch holding only the keys the edit request body set. */
  function PatchOfUpdate(u: CameraUpdate): (p: Patch)
    ensures p.status.None?
    ensures p.name == u.name && p.ip == u.ip && p.port == u.port
    ensures p.username == u.username && p.password == u.password
    ensures p.channel == u.channel && p.stream == u.stream
    ensures p.brand == u.brand && p.codec == u.codec && p.enabled == u.enabled
  {
    Patch(u.name, u.ip, u.port, u.username, u.password, u.channel, u.stream,
          u.brand, u.codec, u.enabled, None)
  }

  /** The patch `{"status": status}`. */
  function StatusPatch(status: CameraStatus): (p: Patch)
    ensures p.status == Some(status)
    ensures p.name.None? && p.ip.None? && p.port.None? && p.username.None?
    ensures p.password.None? && p.channel.None? && p.stream.None?
    ensures p.brand.None? && p.codec.None? && p.enabled.None?
  {
    Patch(None, None, None, None, None, None, None, None, None, None, Some(status))
  }

  /** The patch `{"enabled": enabled}`. */
  function EnabledPatch(enabled: bool): (p: Patch)
    ensures p.enabled == Some(enabled)
    ensures p.name.None? && p.ip.None? && p.port.None? && p.username.None?
    ensures p.password.None? && p.channel.None? && p.stream.None?
    ensures p.brand.None? && p.codec.None? && p.status.None?
  {
    Patch(None, None, None, None, None, None, None, None, None, Some(enabled), None)
  }

  /** `cam_data.update({k: v for k, v in updates.items() if v is not None})`:
      each present key overrides its field, every other field is kept. */
  function ApplyPatch(c: CameraModel, p: Patch): (r: CameraModel)
    ensures r.id == c.id
    ensures r.name == p.name.GetOr(c.name) && r.ip == p.ip.GetOr(c.ip)
    ensures r.port == p.port.GetOr(c.port)
    ensures r.username == p.username.GetOr(c.username)
    ensures r.password == p.password.GetOr(c.password)
    ensures r.channel == p.channel.GetOr(c.channel) && r.stream == p.stream.GetOr(c.stream)
    ensures r.brand == p.brand.GetOr(c.brand) && r.codec == p.codec.GetOr(c.codec)
    ensures r.enabled == p.enabled.GetOr(c.enabled) && r.status == p.status.GetOr(c.status)
  {
    CameraModel(c.id, p.name.GetOr(c.name), p.ip.GetOr(c.ip), p.port.GetOr(c.port),
                p.username.GetOr(c.username), p.password.GetOr(c.password),
                p.channel.GetOr(c.channel), p.stream.GetOr(c.stream),
                p.brand.GetOr(c.brand), p.codec.GetOr(c.codec),
                p.enabled.GetOr(c.enabled), p.status.GetOr(c.status))
  }

  /** Merges the patch into the first camera carrying `id`; an unknown id
      leaves the configuration as it was. */
  function UpdateCamera(config: AppConfig, id: string, p: Patch): (r: AppConfig)
    ensures |r.cameras| == |config.cameras|
    ensures r.(cameras := config.cameras) == config
    ensures !HasId(config.cameras, id) ==> r == config
    ensures forall j :: 0 <= j < |config.cameras| && j != FindIndex(config.cameras, id)
              ==> r.cameras[j] == config.cameras[j]
    ensures FindIndex(config.cameras, id) < |config.cameras| ==>
              r.cameras[FindIndex(config.cameras, id)]
                == ApplyPatch(config.cameras[FindIndex(config.cameras, id)], p)
  {
    var i := FindIndex(config.cameras, id);
    if i < |config.cameras| then
      config.(cameras := config.cameras[i := ApplyPatch(config.cameras[i], p)])
    else config
  }

  // ------------------------------------------------------------ properties

  /** Looking a camera up after adding one: the new camera is found under its
      id unless an earlier camera already had that id; other ids are unaffected. */
  lemma GetAfterAdd(config: AppConfig, camera: CameraModel, id: string)
    ensures GetCamera(AddCamera(config, camera), id)
         == (if HasId(config.cameras, id) then GetCamera(config, id)
             else if camera.id == id then Some(camera) else None)
  {
    var cams := config.cameras;
    var added := AddCamera(config, camera).cameras;
    assert added == cams + [camera];
    FindIndexAppend(cams, camera, id);
  }

  lemma {:induction false} FindIndexAppend(cams: seq<CameraModel>, camera: CameraModel, id: string)
    ensures FindIndex(cams + [camera], id)
         == if FindIndex(cams, id) < |cams| then FindIndex(cams, id)
            else if camera.id == id then |cams| else |cams| + 1
    decreases |cams|
  {
    if |cams| > 0 {
      assert (cams + [camera])[1..] == cams[1..] + [camera];
      FindIndexAppend(cams[1..], camera, id);
    }
  }

  /** After removal the id is not found; other ids find what they found before
      (the first camera with an id is still the first among the kept ones). */
  lemma GetAfterRemove(config: AppConfig, id: string, other: string)
    ensures GetCamera(RemoveCamera(config, id), id).None?
    ensures other != id ==> GetCamera(RemoveCamera(config, id), other) == GetCamera(config, other)
  {
    if other != id {
      FindIndexRemove(config.cameras, id, other);
    }
  }

  lemma {:induction false} FindIndexRemove(cams: seq<CameraModel>, id: string, other: string)
    requires other != id
    ensures (FindIndex(RemoveId(cams, id), other) < |RemoveId(cams, id)|)
        == (FindIndex(cams, other) < |cams|)
    ensures FindIndex(cams, other) < |cams| ==>
      RemoveId(cams, id)[FindIndex(RemoveId(cams, id), other)] == cams[FindIndex(cams, other)]
    decreases |cams|
  {
    if |cams| > 0 {
      FindIndexRemove(cams[1..], id, other);
    }
  }

  /** Removing twice is removing once. */
  lemma RemoveIdempotent(config: AppConfig, id: string)
    ensures RemoveCamera(RemoveCamera(config, id), id) == RemoveCamera(config, id)
  {
    RemoveIdNoop(RemoveCamera(config, id).cameras, id);
  }

  lemma {:induction false} RemoveIdNoop(cams: seq<CameraModel>, id: string)
    requires forall j :: 0 <= j < |cams| ==> cams[j].id != id
    ensures RemoveId(cams, id) == cams
    decreases |cams|
  {
    if |cams| > 0 {
      assert cams[0].id != id;
      RemoveIdNoop(cams[1..], id);
      assert RemoveId(cams, id) == [cams[0]] + RemoveId(cams[1..], id);
      assert cams == [cams[0]] + cams[1..];
    }
  }

  /** An update that sets no key changes nothing. */
  lemma EmptyUpdateIsIdentity(config: AppConfig, id: string)
    ensures UpdateCamera(config, id, PatchOfUpdate(EmptyCameraUpdate())) == config
  {
    var i := FindIndex(config.cameras, id);
    if i < |config.cameras| {
      assert config.cameras[i := config.cameras[i]] == config.cameras;
    }
  }

  /** Applying the same update twice is applying it once. */
  lemma UpdateIdempotent(config: AppConfig, id: string, p: Patch)
    ensures UpdateCamera(UpdateCamera(config, id, p), id, p) == UpdateCamera(config, id, p)
  {
    var i := FindIndex(config.cameras, id);
    if i < |config.cameras| {
      FindIndexUpdate(config.cameras, i, ApplyPatch(config.cameras[i], p), id);
    }
  }

  /** Replacing a camera by one with the same id keeps where that id is found. */
  lemma {:induction false} FindIndexUpdate(cams: seq<CameraModel>, i: nat, c: CameraModel, id: string)
    requires i < |cams| || FindIndex(cams, id) == |cams|
    requires i < |cams| ==> c.id == cams[i].id
    ensures i < |cams| ==> FindIndex(cams[i := c], id) == FindIndex(cams, id)
    decreases |cams|
  {
    if i < |cams| && |cams| > 0 && i > 0 {
      assert cams[i := c][1..] == cams[1..][i - 1 := c];
      FindIndexUpdate(cams[1..], i - 1, c, id);
    }
  }

  /** Looking the id up after an update finds the patched camera. */
  lemma GetAfterUpdate(config: AppConfig, id: string, p: Patch)
    ensures GetCamera(UpdateCamera(config, id, p), id)
         == (if HasId(config.cameras, id) then Some(ApplyPatch(GetCamera(config, id).value, p))
             else None)
  {
    var i := FindIndex(config.cameras, id);
    if i < |config.cameras| {
      FindIndexUpdate(config.cameras, i, ApplyPatch(config.cameras[i], p), id);
    }
  }

  // ------------------------------------------------------------ Python int()

  /** Characters `str.strip()` and `int()` treat as white space, ASCII range. */
  predicate IsSpace(c: char) {
    c == ' ' || (9 <= c as int <= 13) || (28 <= c as int <= 31)
  }

  function StripLeading(s: string): (r: string)
    ensures IsSuffix(r, s)
    ensures |r| > 0 ==> !IsSpace(r[0])
    ensures forall j :: 0 <= j < |s| - |r| ==> IsSpace(s[j])
    decreases |s|
  {
    if |s| > 0 && IsSpace(s[0]) then StripLeading(s[1..]) else s
  }

  function StripTrailing(s: string): (r: string)
    ensures IsPrefix(r, s)
    ensures |r| > 0 ==> !IsSpace(r[|r| - 1])
    ensures forall j :: |r| <= j < |s| ==> IsSpace(s[j])
    decreases |s|
  {
    if |s| > 0 && IsSpace(s[|s| - 1]) then StripTrailing(s[..|s| - 1]) else s
  }

  /** Digits with single underscores between them, as `int()` accepts them. */
  predicate IsDigitGroups(b: string) {
    && |b| > 0
    && IsDigit(b[0]) && IsDigit(b[|b| - 1])
    && (forall j :: 0 <= j < |b| ==> IsDigit(b[j]) || b[j] == '_')
    && NoDoubleUnderscore(b)
  }

  /** No two underscores in a row. */
  predicate NoDoubleUnderscore(b: string)
    decreases |b|
  {
    |b| < 2 || (!(b[0] == '_' && b[1] == '_') && NoDoubleUnderscore(b[1..]))
  }

  lemma {:induction false} DigitsHaveNoUnderscore(d: string)
    requires AllDigits(d)
    ensures NoDoubleUnderscore(d)
    decreases |d|
  {
    if |d| >= 2 {
      assert IsDigit(d[0]);
      DigitsHaveNoUnderscore(d[1..]);
    }
  }

  function DropUnderscores(b: string): (r: string)
    requires forall j :: 0 <= j < |b| ==> IsDigit(b[j]) || b[j] == '_'
    ensures AllDigits(r)
    ensures AllDigits(b) ==> r == b
    decreases |b|
  {
    if |b| == 0 then []
    else if b[0] == '_' then DropUnderscores(b[1..])
    else [b[0]] + DropUnderscores(b[1..])
  }

  /** `str.strip()` on the ASCII white space. */
  function Strip(s: string): (r: string)
    ensures forall c :: c in r ==> c in s
  {
    var a := StripLeading(s);
    SuffixMembers(a, s);
    PrefixMembers(StripTrailing(a), a);
    StripTrailing(a)
  }

  lemma SuffixMembers(r: string, s: string)
    requires IsSuffix(r, s)
    ensures forall c :: c in r ==> c in s
  {
    forall c | c in r ensures c in s {
      var j :| 0 <= j < |r| && r[j] == c;
      assert s[|s| - |r| + j] == c;
    }
  }

  lemma PrefixMembers(r: string, s: string)
    requires IsPrefix(r, s)
    ensures forall c :: c in r ==> c in s
  {
    forall c | c in r ensures c in s {
      var j :| 0 <= j < |r| && r[j] == c;
      assert s[j] == c;
    }
  }

  /** `int()` of unsigned digit groups, or None. */
  function ParseUnsigned(b: string): (r: Option<nat>)
    ensures r.Some? <==> IsDigitGroups(b)
  {
    if IsDigitGroups(b) then Some(GroupsValue(b)) else None
  }

  /** The value of digit groups, the underscores ignored. */
  function GroupsValue(b: string): nat
    requires IsDigitGroups(b)
  {
    DigitsValue(DropUnderscores(b))
  }

  /** `int()` of text with no surrounding white space: an optional sign, then
      digits grouped by single underscores; anything else is None. */
  function ParseStripped(t: string): (r: Option<int>)
    ensures r.Some? && (|t| == 0 || t[0] != '-') ==> r.value >= 0
  {
    if |t| > 0 && (t[0] == '+' || t[0] == '-') then
      match ParseUnsigned(t[1..])
      case None => None
      case Some(v) => Some(if t[0] == '-' then -(v as int) else v)
    else
      match ParseUnsigned(t)
      case None => None
      case Some(v) => Some(v)
  }

  /** Base-10 `int(text)`: surrounding white space ignored, an optional sign,
      digits grouped by single underscores; anything else is a ValueError (None). */
  function ParsePyInt(text: string): (r: Option<int>)
    ensures r.Some? && '-' !in text ==> r.value >= 0
  {
    ParseStripped(Strip(text))
  }

  /** Decimal text has nothing to strip. */
  lemma StripOfIntToString(i: int)
    ensures Strip(IntToString(i)) == IntToString(i)
  {
    var s := IntToString(i);
    var d := NatToString(if i < 0 then -i else i);
    assert !IsSpace(s[0]) by { assert s[0] == '-' || IsDigit(s[0]); }
    assert StripLeading(s) == s;
    assert s[|s| - 1] == d[|d| - 1];
    assert !IsSpace(s[|s| - 1]);
  }

  /** A plain run of digits is one digit group with nothing to drop. */
  lemma DigitsAreGroups(d: string)
    requires |d| > 0 && AllDigits(d)
    ensures IsDigitGroups(d) && DropUnderscores(d) == d
  {
    assert IsDigit(d[0]) && IsDigit(d[|d| - 1]);
    DigitsHaveNoUnderscore(d);
  }

  /** Digits alone read as their value. */
  lemma ParseUnsignedOfDigits(d: string)
    requires |d| > 0 && AllDigits(d)
    ensures ParseUnsigned(d) == Some(DigitsValue(d))
  {
    DigitsAreGroups(d);
  }

  /** Digits read as their value. */
  lemma ParseStrippedOfDigits(d: string)
    requires |d| > 0 && AllDigits(d)
    ensures ParseStripped(d) == Some(DigitsValue(d))
  {
    ParseUnsignedOfDigits(d);
    assert d[0] != '+' && d[0] != '-' by { assert IsDigit(d[0]); }
  }

  /** A minus sign before digits negates their value. */
  lemma ParseStrippedOfNegative(t: string)
    requires |t| > 1 && t[0] == '-' && AllDigits(t[1..])
    ensures ParseStripped(t) == Some(-(DigitsValue(t[1..]) as int))
  {
    ParseUnsignedOfDigits(t[1..]);
  }

  /** `int(str(i)) == i`. */
  lemma ParsePyIntOfIntToString(i: int)
    ensures ParsePyInt(IntToString(i)) == Some(i)
  {
    var s := IntToString(i);
    var n: nat := if i < 0 then -i else i;
    var d := NatToString(n);
    StripOfIntToString(i);
    assert ParsePyInt(s) == ParseStripped(s);
    DigitsValueOfNatToString(n);
    if i < 0 {
      assert s[1..] == d;
      ParseStrippedOfNegative(s);
    } else {
      ParseStrippedOfDigits(d);
    }
  }

  // ------------------------------------------------------------ next id

  /** The number a camera id contributes: `int(id.split("-")[-1])`, or None on ValueError. */
  function IdNumber(id: string): (r: Option<int>)
    ensures r.Some? ==> r.value >= 0
  {
    ParsePyInt(LastField(id, '-'))
  }

  /** The numbers `num` gives the cameras, in order, skipping None. */
  function Numbers(cams: seq<CameraModel>, num: CameraModel -> Option<int>): (nums: seq<int>)
    ensures forall x :: x in nums ==> exists c :: c in cams && num(c) == Some(x)
    ensures forall j :: 0 <= j < |cams| && num(cams[j]).Some? ==> num(cams[j]).value in nums
    decreases |cams|
  {
    if |cams| == 0 then []
    else
      var n := num(cams[0]);
      var rest := Numbers(cams[1..], num);
      assert forall j :: 1 <= j < |cams| ==> cams[j] == cams[1..][j - 1];
      if n.Some? then [n.value] + rest else rest
  }

  /** The list `nums`: the numbers of the cameras whose ids parse, in order. */
  function IdNumbers(cams: seq<CameraModel>): (nums: seq<int>)
    ensures forall x :: x in nums ==> x >= 0
    ensures forall j :: 0 <= j < |cams| && IdNumber(cams[j].id).Some?
              ==> IdNumber(cams[j].id).value in nums
    ensures forall x :: x in nums ==> exists j :: 0 <= j < |cams| && IdNumber(cams[j].id) == Some(x)
  {
    var num := (c: CameraModel) => IdNumber(c.id);
    var nums := Numbers(cams, num);
    assert forall j :: 0 <= j < |cams| ==> num(cams[j]) == IdNumber(cams[j].id);
    nums
  }

  /** `max(nums, default=d)`. */
  function MaxOr(nums: seq<int>, d: int): (m: int)
    ensures nums == [] ==> m == d
    ensures nums != [] ==> m in nums
    ensures forall x :: x in nums ==> x <= m
    decreases |nums|
  {
    if |nums| == 0 then d
    else if |nums| == 1 then nums[0]
    else
      var rest := MaxOr(nums[1..], d);
      assert forall x :: x in nums[1..] ==> x in nums;
      assert forall x :: x in nums ==> x == nums[0] || x in nums[1..];
      if nums[0] > rest then nums[0] else rest
  }

  /** The number of the next id: 1 for an empty list, else one more than the
      largest parseable id number (0 when none parses). */
  function NextNumber(cams: seq<CameraModel>): (n: nat)
    ensures n >= 1
    ensures cams == [] ==> n == 1
    ensures forall j :: 0 <= j < |cams| && IdNumber(cams[j].id).Some? ==> IdNumber(cams[j].id).value < n
  {
    if |cams| == 0 then 1
    else
      var nums := IdNumbers(cams);
      var m := MaxOr(nums, 0);
      assert m >= 0 by { if nums != [] { assert m in nums; } }
      m + 1
  }

  /** The next number is exactly one more than the largest parseable id
      number: above 1 it is one more than some camera's number, and it is 1
      only when no camera's number is positive. */
  lemma NextNumberIsMaxPlusOne(cams: seq<CameraModel>) returns (j: nat)
    ensures NextNumber(cams) > 1 ==>
              j < |cams| && IdNumber(cams[j].id) == Some(NextNumber(cams) - 1)
    ensures NextNumber(cams) == 1 ==>
              forall k :: 0 <= k < |cams| && IdNumber(cams[k].id).Some? ==> IdNumber(cams[k].id).value == 0
  {
    j := 0;
    if |cams| > 0 {
      var nums := IdNumbers(cams);
      var m := MaxOr(nums, 0);
      assert NextNumber(cams) == m + 1;
      if m > 0 {
        assert m in nums;
        j :| 0 <= j < |cams| && IdNumber(cams[j].id) == Some(m);
      }
    }
  }

  /** `next_camera_id`: "camera-" followed by the next number. */
  function NextCameraId(config: AppConfig): (id: string)
    ensures id == "camera-" + NatToString(NextNumber(config.cameras))
    ensures config.cameras == [] ==> id == "camera-1"
  {
    "camera-" + IntToString(NextNumber(config.cameras))
  }

  /** The number an id of the form "camera-N" contributes is N. */
  lemma IdNumberOfCameraId(n: nat)
    ensures IdNumber("camera-" + NatToString(n)) == Some(n)
  {
    var digits := NatToString(n);
    assert "camera-" + digits == "camera" + ['-'] + digits;
    assert '-' !in digits by {
      forall j | 0 <= j < |digits| ensures digits[j] != '-' { assert IsDigit(digits[j]); }
    }
    LastFieldOfSuffix("camera", '-', digits);
    ParsePyIntOfIntToString(n);
  }

  /** The generated id is carried by no existing camera. */
  lemma NextCameraIdFresh(config: AppConfig)
    ensures !HasId(config.cameras, NextCameraId(config))
  {
    var n := NextNumber(config.cameras);
    IdNumberOfCameraId(n);
  }
}
