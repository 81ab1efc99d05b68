/** `UriParts::parseUri` and the mount points of a registered stream. */
module UriParts {
  import opened Wrappers

  datatype UriParts = UriParts(username: string, password: string, ip: string, port: string, path: string, id: string,
                               fullPath: string)

  /** The four profiles, in the order in which they are added. */
  const PROFILES: seq<string> := ["/first", "/second", "/third", "/fourth"]

  function Mount(id: string, profile: nat): string
    requires profile < 4
  {
    "/" + id + PROFILES[profile]
  }

  function MountsOf(id: string): set<string> {
    {Mount(id, 0), Mount(id, 1), Mount(id, 2), Mount(id, 3)}
  }

  /** A mount point tells its id and its profile. */
  lemma MountInjective(id: string, profile: nat, id1: string, profile1: nat)
    requires profile < 4 && profile1 < 4 && Mount(id, profile) == Mount(id1, profile1)
    ensures id == id1 && profile == profile1
  {
    var m, m1 := Mount(id, profile), Mount(id1, profile1);
    LastTwo(id, profile);
    LastTwo(id1, profile1);
    assert m[1..|m| - |PROFILES[profile]|] == id && m1[1..|m1| - |PROFILES[profile1]|] == id1;
  }

  /** The last two letters of a profile differ from those of the others. */
  lemma LastTwo(id: string, profile: nat)
    requires profile < 4
    ensures var m := Mount(id, profile);
            |m| > 2 && m[|m| - 2] == (if profile == 0 then 's' else if profile == 1 then 'n' else if profile == 2 then 'r' else 't')
  {
    var m, p := Mount(id, profile), PROFILES[profile];
    assert m[|m| - 2] == p[|p| - 2];
  }

  lemma FourMounts(id: string)
    ensures |MountsOf(id)| == 4
  {
    forall i: nat, k: nat | i < k < 4 ensures Mount(id, i) != Mount(id, k) {
      if Mount(id, i) == Mount(id, k) { MountInjective(id, i, id, k); }
    }
    assert |{Mount(id, 0), Mount(id, 1)}| == 2;
    assert |{Mount(id, 0), Mount(id, 1), Mount(id, 2)}| == 3;
  }

  lemma MountsApart(id: string, id1: string)
    requires id != id1
    ensures MountsOf(id) !! MountsOf(id1)
  {
    forall i: nat, k: nat | i < 4 && k < 4 ensures Mount(id, i) != Mount(id1, k) {
      if Mount(id, i) == Mount(id1, k) { MountInjective(id, i, id1, k); }
    }
  }

  // ---------------------------------------------------------------------------------------------
  // Parsing

  /** `find(c, from)` */
  function FindChar(s: string, c: char, from: nat): (r: Option<nat>)
    requires from <= |s|
    ensures r.Some? ==> from <= r.value < |s| && s[r.value] == c && c !in s[from..r.value]
    ensures r.None? ==> c !in s[from..]
    decreases |s| - from
  {
    if from == |s| then None
    else if s[from] == c then Some(from)
    else
      assert s[from..] == [s[from]] + s[from + 1..];
      var r := FindChar(s, c, from + 1);
      assert r.Some? ==> s[from..r.value] == [s[from]] + s[from + 1..r.value];
      r
  }

  /** `find("//")` */
  function FindSlashes(s: string): (r: Option<nat>)
    ensures r.Some? ==> r.value + 2 <= |s| && s[r.value] == s[r.value + 1] == '/'
                        && forall k :: 0 <= k < r.value ==> !(s[k] == '/' && s[k + 1] == '/')
    ensures r.None? ==> forall k :: 0 <= k < |s| - 1 ==> !(s[k] == '/' && s[k + 1] == '/')
  {
    if |s| < 2 then None
    else if s[0] == '/' && s[1] == '/' then Some(0)
    else match FindSlashes(s[1..])
      case None => None
      case Some(k) => Some(k + 1)
  }

  /** What stands between the slashes and the address, up to the first at sign. */
  datatype Credentials = Credentials(username: string, password: string, next: nat)

  function CredentialsAt(uri: string, pos: nat): (c: Credentials)
    requires pos <= |uri|
    ensures c.next <= |uri|
  {
    match FindChar(uri, '@', pos)
    case None => Credentials("", "", pos)
    case Some(at) =>
      match FindChar(uri, ':', pos)
      case Some(colon) =>
        if colon < at then Credentials(uri[pos..colon], uri[colon + 1..at], at + 1)
        else Credentials(uri[pos..at], "", at + 1)
      case None => Credentials(uri[pos..at], "", at + 1)
  }

  /** What follows the credentials. */
  datatype Address = Address(ip: string, port: string, path: string)

  function HostOf(address: string): Address {
    match FindChar(address, ':', 0)
    case None => Address(address, "554", "")
    case Some(colon) => Address(address[..colon], address[colon + 1..], "")
  }

  function AddressOf(rest: string): Address {
    match FindChar(rest, '/', 0)
    case None => HostOf(rest)
    case Some(slash) => HostOf(rest[..slash]).(path := rest[slash + 1..])
  }

  function Assembled(c: Credentials, a: Address, id: string, uri: string): UriParts {
    UriParts(c.username, c.password, a.ip, a.port, a.path, id, uri)
  }

  /** None where the exception is thrown. */
  function Parsed(id: string, uri: string): Option<UriParts> {
    match FindSlashes(uri)
    case None => None
    case Some(start) =>
      var c := CredentialsAt(uri, start + 2);
      Some(Assembled(c, AddressOf(uri[c.next..]), id, uri))
  }

  /** `parseUri` */
  method ParseUri(id: string, uri: string) returns (r: Option<UriParts>)
    ensures r == Parsed(id, uri)
    ensures r.None? <==> forall k :: 0 <= k < |uri| - 1 ==> !(uri[k] == '/' && uri[k + 1] == '/')
  {
    hide FindChar, FindSlashes, CredentialsAt, AddressOf;
    var start := FindSlashes(uri);
    if start.None? { return None; }
    var username, password, pos := ParseCredentials(uri, start.value + 2);
    var ip, port, path := ParseAddress(uri[pos..]);
    return Some(UriParts(username, password, ip, port, path, id, uri));
  }

  method ParseCredentials(uri: string, start: nat) returns (username: string, password: string, pos: nat)
    requires start <= |uri|
    ensures pos <= |uri| && Credentials(username, password, pos) == CredentialsAt(uri, start)
  {
    hide FindChar;
    username, password, pos := "", "", start;
    var at := FindChar(uri, '@', pos);
    if at.Some? {
      var colon := FindChar(uri, ':', pos);
      if colon.Some? && colon.value < at.value {
        username, password := uri[pos..colon.value], uri[colon.value + 1..at.value];
      } else {
        username := uri[pos..at.value];
      }
      pos := at.value + 1;
    }
  }

  method ParseAddress(rest: string) returns (ip: string, port: string, path: string)
    ensures Address(ip, port, path) == AddressOf(rest)
  {
    hide FindChar;
    var slash := FindChar(rest, '/', 0);
    var address := if slash.Some? then rest[..slash.value] else rest;
    path := if slash.Some? then rest[slash.value + 1..] else "";
    var colon := FindChar(address, ':', 0);
    ip, port := address, "554";
    if colon.Some? {
      ip, port := address[..colon.value], address[colon.value + 1..];
    }
  }

  // ---------------------------------------------------------------------------------------------
  // Putting a uri together

  function UserText(user: Option<string>, password: Option<string>): string {
    if user.None? then "" else user.value + (if password.None? then "" else ":" + password.value) + "@"
  }

  function AddressText(ip: string, port: Option<string>, path: Option<string>): string {
    ip + (if port.None? then "" else ":" + port.value) + (if path.None? then "" else "/" + path.value)
  }

  /** `scheme://[user[:password]@]ip[:port][/path]` */
  function Written(scheme: string, user: Option<string>, password: Option<string>, ip: string, port: Option<string>,
                   path: Option<string>): string
  {
    scheme + "//" + (UserText(user, password) + AddressText(ip, port, path))
  }

  lemma CharFound(a: string, c: char, rest: string, from: nat)
    requires from <= |a| && c !in a[from..]
    ensures FindChar(a + [c] + rest, c, from) == Some(|a|)
    decreases |a| - from
  {
    if from < |a| {
      assert a[from..] == [a[from]] + a[from + 1..];
      CharFound(a, c, rest, from + 1);
    }
  }

  lemma CharMissing(s: string, c: char, from: nat)
    requires from <= |s| && c !in s[from..]
    ensures FindChar(s, c, from) == None
  {
    forall k | from <= k < |s| ensures s[k] != c { assert s[k] == s[from..][k - from]; }
  }

  lemma {:induction false} SlashesFound(scheme: string, rest: string)
    requires '/' !in scheme
    ensures FindSlashes(scheme + "//" + rest) == Some(|scheme|)
    decreases |scheme|
  {
    var s := scheme + "//" + rest;
    if scheme != "" {
      assert s[0] == scheme[0] && s[1..] == scheme[1..] + "//" + rest;
      SlashesFound(scheme[1..], rest);
    }
  }

  lemma AddressParsed(ip: string, port: Option<string>, path: Option<string>)
    requires '/' !in ip && ':' !in ip && (port.Some? ==> '/' !in port.value)
    ensures AddressOf(AddressText(ip, port, path))
         == Address(ip, if port.None? then "554" else port.value, if path.None? then "" else path.value)
  {
    hide FindChar, HostOf;
    var address := ip + (if port.None? then "" else ":" + port.value);
    HostParsed(ip, port);
    assert address[0..] == address;
    if path.Some? {
      CharFound(address, '/', path.value, 0);
      var text := address + ['/'] + path.value;
      assert AddressText(ip, port, path) == text;
      assert text[..|address|] == address && text[|address| + 1..] == path.value;
    } else {
      assert address + "" == address;
      CharMissing(address, '/', 0);
    }
  }

  lemma HostParsed(ip: string, port: Option<string>)
    requires ':' !in ip
    ensures HostOf(ip + (if port.None? then "" else ":" + port.value))
         == Address(ip, if port.None? then "554" else port.value, "")
  {
    hide FindChar;
    assert ip[0..] == ip;
    if port.Some? {
      CharFound(ip, ':', port.value, 0);
      var text := ip + [':'] + port.value;
      assert ip + (":" + port.value) == text;
      assert text[..|ip|] == ip && text[|ip| + 1..] == port.value;
    } else {
      assert ip + "" == ip;
      CharMissing(ip, ':', 0);
    }
  }

  /** Reading gives back what was written, when no separator occurs where it would be taken for one.  Without
      credentials there must be no at sign anywhere after the slashes, not even in the path. */
  lemma ParseWritten(scheme: string, user: Option<string>, password: Option<string>, ip: string, port: Option<string>,
                     path: Option<string>, id: string)
    requires '/' !in scheme && '/' !in ip && ':' !in ip && (port.Some? ==> '/' !in port.value)
    requires user.None? ==> password.None? && '@' !in AddressText(ip, port, path)
    requires user.Some? ==> ':' !in user.value && '@' !in user.value && (password.Some? ==> '@' !in password.value)
    ensures var uri := Written(scheme, user, password, ip, port, path);
            Parsed(id, uri)
            == Some(UriParts(if user.None? then "" else user.value, if password.None? then "" else password.value,
                             ip, if port.None? then "554" else port.value, if path.None? then "" else path.value, id, uri))
  {
    hide FindChar, FindSlashes, CredentialsAt, AddressOf, AddressText, UserText;
    var rest, front := AddressText(ip, port, path), UserText(user, password);
    var uri := Written(scheme, user, password, ip, port, path);
    SlashesFound(scheme, front + rest);
    CredentialsParsed(scheme, user, password, rest);
    assert uri[|scheme| + 2 + |front|..] == rest;
    AddressParsed(ip, port, path);
  }

  lemma CredentialsParsed(scheme: string, user: Option<string>, password: Option<string>, rest: string)
    requires user.None? ==> password.None? && '@' !in rest
    requires user.Some? ==> ':' !in user.value && '@' !in user.value && (password.Some? ==> '@' !in password.value)
    ensures var front := UserText(user, password);
            CredentialsAt(scheme + "//" + (front + rest), |scheme| + 2)
            == Credentials(if user.None? then "" else user.value, if password.None? then "" else password.value,
                           |scheme| + 2 + |front|)
  {
    hide FindChar, CredentialsAt;
    var start := scheme + "//";
    if user.None? {
      assert "" + rest == rest;
      assert (start + rest)[|start|..] == rest;
      CharMissing(start + rest, '@', |start|);
      NoCredentials(start + rest, |start|);
    } else if password.None? {
      assert start + (user.value + "" + "@" + rest) == start + user.value + ['@'] + rest;
      UserOnly(start, user.value, rest);
    } else {
      assert start + (user.value + (":" + password.value) + "@" + rest)
          == start + user.value + [':'] + password.value + ['@'] + rest;
      UserAndPassword(start, user.value, password.value, rest);
    }
  }

  lemma NoCredentials(uri: string, pos: nat)
    requires pos <= |uri| && FindChar(uri, '@', pos) == None
    ensures CredentialsAt(uri, pos) == Credentials("", "", pos)
  {
    hide FindChar;
  }

  lemma UserOnly(start: string, user: string, rest: string)
    requires ':' !in user && '@' !in user
    ensures CredentialsAt(start + user + ['@'] + rest, |start|) == Credentials(user, "", |start + user| + 1)
  {
    hide FindChar;
    var a := start + user;
    assert a[|start|..] == user;
    CharFound(a, '@', rest, |start|);
    NotBefore(a, ':', ['@'] + rest, |start|);
    assert a + (['@'] + rest) == a + ['@'] + rest;
    assert (a + ['@'] + rest)[|start|..|a|] == user;
  }

  lemma UserAndPassword(start: string, user: string, password: string, rest: string)
    requires ':' !in user && '@' !in user && '@' !in password
    ensures CredentialsAt(start + user + [':'] + password + ['@'] + rest, |start|)
         == Credentials(user, password, |start + user| + 1 + |password| + 1)
  {
    hide FindChar;
    var a := start + user;
    var b := a + [':'] + password;
    assert a[|start|..] == user && b[|start|..] == user + [':'] + password;
    CharFound(b, '@', rest, |start|);
    CharFound(a, ':', password + ['@'] + rest, |start|);
    var uri := b + ['@'] + rest;
    assert uri == a + [':'] + (password + ['@'] + rest);
    assert uri[|start|..|a|] == user && uri[|a| + 1..|b|] == password;
  }

  lemma NotBefore(a: string, c: char, rest: string, from: nat)
    requires from <= |a| && c !in a[from..]
    ensures var r := FindChar(a + rest, c, from); r.Some? ==> |a| <= r.value
  {
    forall k | from <= k < |a| ensures (a + rest)[k] != c { assert a[k] == a[from..][k - from]; }
  }

  // ---------------------------------------------------------------------------------------------
  // An at sign without credentials

  /** The credentials are those before the first at sign. */
  lemma AtSignTaken(start: string, rest: string, at: nat)
    requires at < |rest| && rest[at] == '@' && '@' !in rest[..at]
    ensures var c := CredentialsAt(start + rest, |start|);
            && c.next == |start| + at + 1
            && (c.username == "" && c.password == "" ==> at == 0 || (at == 1 && rest[0] == ':'))
  {
    hide FindChar;
    var a := start + rest[..at];
    assert a[|start|..] == rest[..at];
    assert start + rest == a + ['@'] + rest[at + 1..];
    CharFound(a, '@', rest[at + 1..], |start|);
  }

  /** The address behind an at sign that begins the text is shorter than the one that was written. */
  lemma AtSignFirst(ip: string, port: Option<string>, path: Option<string>)
    requires '/' !in ip && ':' !in ip && (port.Some? ==> '/' !in port.value)
    requires var rest := AddressText(ip, port, path); rest != "" && rest[0] == '@'
    ensures AddressOf(AddressText(ip, port, path)[1..]).ip != ip
  {
    hide AddressOf;
    assert ip != "";
    assert AddressText(ip, port, path)[1..] == AddressText(ip[1..], port, path);
    AddressParsed(ip[1..], port, path);
  }

  /** A host with nothing but a path behind it. */
  lemma HostAlone(host: string, path: Option<string>)
    requires '/' !in host
    ensures var a := AddressOf(AddressText(host, None, path)); a.ip == HostOf(host).ip && a.port == HostOf(host).port
  {
    hide FindChar, HostOf;
    var text := AddressText(host, None, path);
    assert host[0..] == host;
    if path.Some? {
      CharFound(host, '/', path.value, 0);
      assert text == host + ['/'] + path.value && text[..|host|] == host;
    } else {
      assert text == host;
      CharMissing(host, '/', 0);
    }
  }

  /** So is the port behind a colon and an at sign. */
  lemma AtSignSecond(port: string, path: Option<string>)
    requires '/' !in port && port != "" && port[0] == '@'
    ensures AddressText("", Some(port), path)[2..] == AddressText(port[1..], None, path)
    ensures var a := AddressOf(AddressText(port[1..], None, path)); a.ip != "" || a.port != port
  {
    hide FindChar, AddressOf;
    HostAlone(port[1..], path);
    hide AddressText;
    SecondText(port, path);
    assert "554"[0] == '5';
  }

  lemma SecondText(port: string, path: Option<string>)
    requires port != ""
    ensures AddressText("", Some(port), path)[2..] == AddressText(port[1..], None, path)
  {
  }

  lemma {:induction false} FirstAtSign(s: string) returns (at: nat)
    requires '@' in s
    ensures at < |s| && s[at] == '@' && '@' !in s[..at]
    decreases |s|
  {
    if s[|s| - 1] == '@' && '@' !in s[..|s| - 1] {
      at := |s| - 1;
    } else {
      assert s == s[..|s| - 1] + [s[|s| - 1]];
      at := FirstAtSign(s[..|s| - 1]);
      assert s[..|s| - 1][..at] == s[..at];
    }
  }

  lemma WrittenPlain(scheme: string, ip: string, port: Option<string>, path: Option<string>)
    ensures Written(scheme, None, None, ip, port, path) == scheme + "//" + AddressText(ip, port, path)
  {
    hide AddressText;
    assert "" + AddressText(ip, port, path) == AddressText(ip, port, path);
  }

  /** How a text without credentials is taken apart at its first at sign. */
  lemma ParsedAt(scheme: string, rest: string, at: nat, id: string)
    requires '/' !in scheme && at < |rest| && rest[at] == '@' && '@' !in rest[..at]
    ensures var p := Parsed(id, scheme + "//" + rest);
            && p.Some? && p.value.ip == AddressOf(rest[at + 1..]).ip && p.value.port == AddressOf(rest[at + 1..]).port
            && (p.value.username == "" && p.value.password == "" ==> at == 0 || (at == 1 && rest[0] == ':'))
  {
    hide FindSlashes, CredentialsAt, AddressOf;
    var start := scheme + "//";
    SlashesFound(scheme, rest);
    AtSignTaken(start, rest, at);
    assert (start + rest)[|start| + at + 1..] == rest[at + 1..];
  }

  lemma AtSignChanges(scheme: string, ip: string, port: Option<string>, path: Option<string>, id: string)
    requires '/' !in scheme && '/' !in ip && ':' !in ip && (port.Some? ==> '/' !in port.value)
    requires '@' in AddressText(ip, port, path)
    ensures var p := Parsed(id, Written(scheme, None, None, ip, port, path));
            p.Some? && (p.value.username != "" || p.value.password != "" || p.value.ip != ip
                        || p.value.port != if port.None? then "554" else port.value)
  {
    hide Parsed, Written, AddressOf, AddressText;
    var rest := AddressText(ip, port, path);
    WrittenPlain(scheme, ip, port, path);
    var at := FirstAtSign(rest);
    ParsedAt(scheme, rest, at, id);
    if at == 0 {
      AtSignFirst(ip, port, path);
    } else if at == 1 && rest[0] == ':' {
      ColonFirst(ip, port, path);
      AtSignSecond(port.value, path);
    }
  }

  lemma ColonFirst(ip: string, port: Option<string>, path: Option<string>)
    requires ':' !in ip
    requires var rest := AddressText(ip, port, path); |rest| > 1 && rest[0] == ':' && rest[1] == '@'
    requires port.Some? ==> '/' !in port.value
    ensures ip == "" && port.Some? && port.value != "" && port.value[0] == '@'
  {
    var rest := AddressText(ip, port, path);
    assert ip == "";
  }

  /** Without credentials a written URI is read back if and only if there is no at sign in it, not even in the
      path. */
  lemma ReadWithoutCredentials(scheme: string, ip: string, port: Option<string>, path: Option<string>, id: string)
    requires '/' !in scheme && '/' !in ip && ':' !in ip && (port.Some? ==> '/' !in port.value)
    ensures var uri := Written(scheme, None, None, ip, port, path);
            Parsed(id, uri)
            == Some(UriParts("", "", ip, if port.None? then "554" else port.value, if path.None? then "" else path.value, id, uri))
            <==> '@' !in AddressText(ip, port, path)
  {
    hide Parsed, Written, AddressText;
    if '@' in AddressText(ip, port, path) {
      AtSignChanges(scheme, ip, port, path, id);
    } else {
      ParseWritten(scheme, None, None, ip, port, path, id);
    }
  }

  /** An at sign in the path is taken for the end of credentials: host and path become the user name. */
  lemma AtSignInPath(scheme: string, host: string, path: string, tail: string, id: string)
    requires '/' !in scheme && '/' !in tail && ':' !in tail
    requires ':' !in host && '@' !in host && ':' !in path && '@' !in path
    ensures var uri := Written(scheme, None, None, host, None, Some(path + "@" + tail));
            Parsed(id, uri) == Some(UriParts(host + "/" + path, "", tail, "554", "", id, uri))
  {
    hide Parsed;
    assert Written(scheme, None, None, host, None, Some(path + "@" + tail))
        == Written(scheme, Some(host + "/" + path), None, tail, None, None);
    ParseWritten(scheme, Some(host + "/" + path), None, tail, None, None, id);
  }
}
