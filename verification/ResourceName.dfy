/** The C++ resource identifier: its four-part full name, printed and parsed. */
module ResourceName {
  import opened Base
  import opened Lookup
  import opened Decimal

  const MAX_FIELD: nat := MAX_STR_LEN - 1

  /** What c_str() shows of a std::string: everything up to the first NUL. */
  function CStr(s: string): string {
    if s == "" || s[0] == '\0' then "" else [s[0]] + CStr(s[1..])
  }

  /** What strncpy leaves in a zeroed field buffer. */
  function Stored(s: string): string {
    var c := CStr(s);
    if |c| > MAX_FIELD then c[..MAX_FIELD] else c
  }

  function OrStar(s: string): string {
    if s == "" then "*" else s
  }

  /** The printer. */
  function FullName(id: Query): string {
    OrStar(id.group) + "/" + OrStar(id.device) + "/" + OrStar(id.resource) + "/"
    + (if id.instance != 0 then ToString(id.instance) else "*")
  }

  // ---------------------------------------------------------------------------------------
  // What a name means

  /** The part before the first '/', and the part after it if there is one. */
  function Cut(s: string): (string, Option<string>) {
    if s == "" then ("", None)
    else if s[0] == '/' then ("", Some(s[1..]))
    else
      var (head, rest) := Cut(s[1..]);
      ([s[0]] + head, rest)
  }

  /** An instance that is missing is 0, one that cannot be read is -1. */
  function InstanceOf(s: string): int {
    if s == "" then 0 else match Stoi(CStr(s)) case Some(n) => n case None => -1
  }

  /** The identifier a name stands for: "device", "group/device", "group/device/resource" or
      "group/device/resource/instance". */
  function Parse(name: string): Query {
    var (a, rest) := Cut(name);
    if rest.None? then Query("", Stored(a), "", 0) else ParseDevice(Stored(a), rest.value)
  }

  function ParseDevice(group: string, name: string): Query {
    var (b, rest) := Cut(name);
    if rest.None? then Query(group, Stored(b), "", 0) else ParseResource(group, Stored(b), rest.value)
  }

  function ParseResource(group: string, device: string, name: string): Query {
    var (c, rest) := Cut(name);
    Query(group, device, Stored(c), if rest.None? then 0 else InstanceOf(rest.value))
  }

  /** A field keeps the longest part of the text that has no NUL and fits the buffer. */
  lemma StoredIsPrefix(s: string)
    ensures var f := Stored(s);
            && |f| <= |s| && |f| <= 255 && f == s[..|f|] && '\0' !in f
            && (|f| == 255 || |f| == |s| || s[|f|] == '\0')
  {
    CStrIsPrefix(s);
  }

  lemma {:induction false} CStrIsPrefix(s: string)
    ensures var c := CStr(s);
            && |c| <= |s| && c == s[..|c|] && '\0' !in c && (|c| == |s| || s[|c|] == '\0')
  {
    if s != "" && s[0] != '\0' {
      CStrIsPrefix(s[1..]);
      var c := CStr(s[1..]);
      assert s[..|c| + 1] == [s[0]] + s[1..][..|c|];
    }
  }

  /** Which part of a name goes where. */
  lemma PartsOfName(group: string, device: string, resource: string, instance: string)
    requires '/' !in group && '/' !in device && '/' !in resource
    ensures Parse(device) == Query("", Stored(device), "", 0)
    ensures Parse(group + "/" + device) == Query(Stored(group), Stored(device), "", 0)
    ensures Parse(group + "/" + (device + "/" + resource))
            == Query(Stored(group), Stored(device), Stored(resource), 0)
    ensures Parse(group + "/" + (device + "/" + (resource + "/" + instance)))
            == Query(Stored(group), Stored(device), Stored(resource), InstanceOf(instance))
  {
    CutWithoutSlash(device);
    PartAfterGroup(group, device);
    PartAfterGroup(group, device + "/" + resource);
    PartAfterGroup(group, device + "/" + (resource + "/" + instance));
    PartsAfterDevice(Stored(group), device, resource, instance);
  }

  lemma PartAfterGroup(group: string, rest: string)
    requires '/' !in group
    ensures Parse(group + "/" + rest) == ParseDevice(Stored(group), rest)
  {
    CutAtSlash(group, rest);
  }

  lemma PartsAfterDevice(group: string, device: string, resource: string, instance: string)
    requires '/' !in device && '/' !in resource
    ensures ParseDevice(group, device) == Query(group, Stored(device), "", 0)
    ensures ParseDevice(group, device + "/" + resource) == Query(group, Stored(device), Stored(resource), 0)
    ensures ParseDevice(group, device + "/" + (resource + "/" + instance))
            == Query(group, Stored(device), Stored(resource), InstanceOf(instance))
  {
    CutWithoutSlash(device);
    CutWithoutSlash(resource);
    CutAtSlash(device, resource);
    CutAtSlash(device, resource + "/" + instance);
    CutAtSlash(resource, instance);
  }

  /** The instance part: nothing means 0, a decimal number means itself, and anything in which
      no 32-bit number can be read means -1. */
  lemma InstancePart(s: string, n: int)
    requires IsInt32(n)
    ensures InstanceOf("") == 0 && InstanceOf(ToString(n)) == n
    ensures s != "" && Stoi(CStr(s)).None? ==> InstanceOf(s) == -1
  {
    CStrWhole(ToString(n));
    StoiRoundTrip(n);
  }

  // ---------------------------------------------------------------------------------------
  // Round trips

  /** What a field of an identifier can hold, apart from a '/'. */
  predicate IsField(s: string) {
    |s| <= MAX_FIELD && '\0' !in s
  }

  predicate IsCleanId(id: Query) {
    && IsField(id.group) && IsField(id.device) && IsField(id.resource) && IsInt32(id.instance)
    && '/' !in id.group && '/' !in id.device && '/' !in id.resource
  }

  /** Wildcards made explicit, and an absent instance made invalid. */
  function Starred(id: Query): Query {
    Query(OrStar(id.group), OrStar(id.device), OrStar(id.resource), if id.instance != 0 then id.instance else -1)
  }

  lemma {:induction false} CStrWhole(s: string)
    requires '\0' !in s
    ensures CStr(s) == s
  {
    if s != "" {
      assert s[0] in s;
      CStrWhole(s[1..]);
    }
  }

  lemma {:induction false} CStrPart(s: string)
    ensures '\0' !in CStr(s) && forall c | c in CStr(s) :: c in s
  {
    if s != "" && s[0] != '\0' { CStrPart(s[1..]); }
  }

  lemma {:induction false} CutParts(s: string)
    ensures var (head, rest) := Cut(s);
            '/' !in head && s == if rest.Some? then head + "/" + rest.value else head
  {
    if s != "" && s[0] != '/' {
      CutParts(s[1..]);
      assert s == [s[0]] + s[1..];
    }
  }

  lemma {:induction false} CutWithoutSlash(s: string)
    requires '/' !in s
    ensures Cut(s) == (s, None)
  {
    if s != "" {
      assert s[0] in s;
      CutWithoutSlash(s[1..]);
      assert s == [s[0]] + s[1..];
    }
  }

  lemma {:induction false} CutAtSlash(head: string, rest: string)
    requires '/' !in head
    ensures Cut(head + "/" + rest) == (head, Some(rest))
  {
    var whole := head + "/" + rest;
    if head == "" {
      assert whole[1..] == rest;
    } else {
      assert head[0] in head && whole[0] == head[0];
      assert whole[1..] == head[1..] + "/" + rest;
      assert [head[0]] + head[1..] == head;
      CutAtSlash(head[1..], rest);
    }
  }

  /** A printed identifier cut at its slashes has four parts: three fields and the instance in
      decimal, each a star where it is a wildcard. */
  lemma PrintedParts(id: Query)
    requires IsCleanId(id)
    ensures var (group, rest) := Cut(FullName(id));
            && group == OrStar(id.group) && rest.Some?
            && var (device, rest) := Cut(rest.value);
               && device == OrStar(id.device) && rest.Some?
               && var inst := if id.instance == 0 then "*" else ToString(id.instance);
                  Cut(rest.value) == (OrStar(id.resource), Some(inst))
  {
    var g, d, r := OrStar(id.group), OrStar(id.device), OrStar(id.resource);
    var inst := if id.instance != 0 then ToString(id.instance) else "*";
    assert FullName(id) == g + "/" + (d + "/" + (r + "/" + inst));
    CutAtSlash(g, d + "/" + (r + "/" + inst));
    CutAtSlash(d, r + "/" + inst);
    CutAtSlash(r, inst);
  }

  /** Reading back a printed identifier makes its wildcards explicit. */
  lemma ParsePrinted(id: Query)
    requires IsCleanId(id)
    ensures Parse(FullName(id)) == Starred(id)
  {
    var g, d, r := OrStar(id.group), OrStar(id.device), OrStar(id.resource);
    var inst := if id.instance != 0 then ToString(id.instance) else "*";
    assert FullName(id) == g + "/" + (d + "/" + (r + "/" + inst));
    CutAtSlash(g, d + "/" + (r + "/" + inst));
    CutAtSlash(d, r + "/" + inst);
    CutAtSlash(r, inst);
    CStrWhole(g);
    CStrWhole(d);
    CStrWhole(r);
    CStrWhole(inst);
    if id.instance != 0 { StoiRoundTrip(id.instance); }
  }

  /** Printing and parsing give an identifier back exactly when it has no wildcard. */
  lemma RoundTripWithoutWildcards(id: Query)
    requires IsCleanId(id)
    ensures Parse(FullName(id)) == id <==> id.group != "" && id.device != "" && id.resource != "" && id.instance != 0
  {
    ParsePrinted(id);
  }

  lemma ParseIsClean(name: string)
    ensures IsCleanId(Parse(name))
  {
    var (a, rest) := Cut(name);
    CutParts(name);
    CStrPart(a);
    if rest.Some? {
      CutParts(rest.value);
      var (b, rest) := Cut(rest.value);
      CStrPart(b);
      if rest.Some? {
        CutParts(rest.value);
        var (c, rest) := Cut(rest.value);
        CStrPart(c);
      }
    }
  }

  /** Whatever name one starts from, printing and parsing what was parsed changes it once at
      most: the second time is the identity. */
  lemma ReparsingSettles(name: string)
    ensures var once := Parse(FullName(Parse(name)));
            once == Starred(Parse(name)) && Parse(FullName(once)) == once
  {
    var id := Parse(name);
    ParseIsClean(name);
    ParsePrinted(id);
    ParsePrinted(Starred(id));
  }

  // ---------------------------------------------------------------------------------------
  // The class

  /** std::string::find from a position; None is npos. */
  method Find(s: string, c: char, from: nat) returns (r: Option<nat>)
    requires from <= |s|
    ensures r.Some? ==> from <= r.value < |s| && s[r.value] == c
    ensures forall j | from <= j < |s| && (r.Some? ==> j < r.value) :: s[j] != c
  {
    for i := from to |s|
      invariant forall j | from <= j < i :: s[j] != c
    {
      if s[i] == c { return Some(i); }
    }
    return None;
  }

  /** at is where Find finds the next '/'. */
  ghost predicate IsNextSlash(s: string, from: nat, at: Option<nat>) {
    && from <= |s|
    && (at.Some? ==> from <= at.value < |s| && s[at.value] == '/')
    && forall j | from <= j < |s| && (at.Some? ==> j < at.value) :: s[j] != '/'
  }

  /** There the rest of the name is cut. */
  lemma CutAtFound(s: string, from: nat, at: Option<nat>)
    requires IsNextSlash(s, from, at)
    ensures Cut(s[from..]) == if at.Some? then (s[from..at.value], Some(s[at.value + 1..])) else (s[from..], None)
  {
    var tail := s[from..];
    if at.Some? {
      assert tail == s[from..at.value] + "/" + s[at.value + 1..];
      CutAtSlash(s[from..at.value], s[at.value + 1..]);
    } else {
      assert forall j | 0 <= j < |tail| :: tail[j] == s[from + j];
      CutWithoutSlash(tail);
    }
  }

  lemma ParseByPosition(name: string, at: Option<nat>)
    requires IsNextSlash(name, 0, at)
    ensures Parse(name) == if at.None? then Query("", Stored(name), "", 0)
                           else ParseDevice(Stored(name[0..at.value]), name[at.value + 1..])
  {
    CutAtFound(name, 0, at);
    assert name[0..] == name;
  }

  lemma ParseDeviceByPosition(name: string, from: nat, at: Option<nat>, g: string)
    requires IsNextSlash(name, from, at)
    ensures ParseDevice(g, name[from..]) == if at.None? then Query(g, Stored(name[from..]), "", 0)
                                            else ParseResource(g, Stored(name[from..at.value]), name[at.value + 1..])
  {
    CutAtFound(name, from, at);
  }

  lemma ParseResourceByPosition(name: string, from: nat, at: Option<nat>, g: string, d: string)
    requires IsNextSlash(name, from, at)
    ensures ParseResource(g, d, name[from..]) ==
            if at.None? then Query(g, d, Stored(name[from..]), 0)
            else Query(g, d, Stored(name[from..at.value]), InstanceOf(name[at.value + 1..]))
  {
    CutAtFound(name, from, at);
  }

  class ResourceID {
    var group: string
    var device: string
    var resource: string
    var instance: int

    function Id(): Query
      reads this
    {
      Query(group, device, resource, instance)
    }

    constructor ()
      ensures Id() == Query("", "", "", 0)
    {
      group, device, resource, instance := "", "", "", 0;
    }

    /** The parser: everything is cleared, then filled as far as the name goes. */
    method SetFullName(name: string)
      modifies this
      ensures Id() == Parse(name)
    {
      group, device, resource, instance := "", "", "", 0;
      var i1 := Find(name, '/', 0);
      ParseByPosition(name, i1);
      if i1.None? {
        device := Stored(name);
      } else {
        group := Stored(name[0..i1.value]);
        SetFromDevice(name, i1.value + 1);
      }
    }

    /** The part of the parser after the first '/'. */
    method SetFromDevice(name: string, from: nat)
      requires from <= |name| && resource == "" && instance == 0
      modifies this`device, this`resource, this`instance
      ensures Id() == ParseDevice(group, name[from..])
    {
      var i2 := Find(name, '/', from);
      ParseDeviceByPosition(name, from, i2, group);
      if i2.None? {
        device := Stored(name[from..]);
      } else {
        device := Stored(name[from..i2.value]);
        SetFromResource(name, i2.value + 1);
      }
    }

    /** The part of the parser after the second '/'. */
    method SetFromResource(name: string, from: nat)
      requires from <= |name| && instance == 0
      modifies this`resource, this`instance
      ensures Id() == ParseResource(group, device, name[from..])
    {
      var i3 := Find(name, '/', from);
      ParseResourceByPosition(name, from, i3, group, device);
      if i3.None? {
        resource := Stored(name[from..]);
      } else {
        resource := Stored(name[from..i3.value]);
        var instanceStr := name[i3.value + 1..];
        if |instanceStr| > 0 {
          var n := Stoi(CStr(instanceStr));
          instance := if n.Some? then n.value else -1;
        }
      }
    }
  }
}
