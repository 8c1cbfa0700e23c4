/** What two parties agree on: CspPartySettings and the two-sided Client::init. */
module Negotiation {
  import opened Status

  const UNDEFINED_VERSION: nat := 0xff

  /** CommonFlags: the set of its bits; there are no others once a value has been masked. */
  datatype Flag = Bitness32 | BigEndianFormat | EndiannessDifference

  datatype InterfaceVersion = InterfaceVersion(id: nat, version: nat)

  /** The settings of a party; versions stand newest first. */
  datatype Settings = Settings(versions: seq<nat>, mandatory: set<Flag>, forbidden: set<Flag>,
                               interfaces: seq<InterfaceVersion>)

  predicate IsValid(s: Settings) {
    s.versions != [] && s.mandatory * s.forbidden == {} && s.interfaces != []
  }

  /** testCommonFlagsCompatibility; the mask of reserved bits is empty once it is a CommonFlags. */
  predicate Accepts(s: Settings, flags: set<Flag>) {
    flags !! s.forbidden && flags * s.mandatory == s.mandatory
  }

  predicate Descending(versions: seq<nat>) {
    forall i, j | 0 <= i < j < |versions| :: versions[i] > versions[j]
  }

  /** No id occurs twice. */
  predicate UniqueIds(table: seq<InterfaceVersion>) {
    forall i, j | 0 <= i < j < |table| :: table[i].id != table[j].id
  }

  // ---------------------------------------------------------------- what is agreed on

  function CommonVersions(l: seq<nat>, r: seq<nat>): seq<nat> {
    if l == [] then [] else
      var rest := CommonVersions(l[..|l| - 1], r);
      if l[|l| - 1] in r then rest + [l[|l| - 1]] else rest
  }

  /** The first entry of `table` for `id`. */
  function Lookup(table: seq<InterfaceVersion>, id: nat): (r: Result<nat>)
    ensures r.Ok? <==> exists i :: 0 <= i < |table| && table[i].id == id
    ensures r.Ok? ==>
              exists i :: 0 <= i < |table| && table[i] == InterfaceVersion(id, r.value)
                          && forall j | 0 <= j < i :: table[j].id != id
  {
    if table == [] then Err(ErrorNoSupportedInterfaces)
    else if table[0].id == id then Ok(table[0].version)
    else
      var rest := Lookup(table[1..], id);
      assert forall i | 0 <= i < |table[1..]| :: table[1..][i] == table[i + 1];
      rest
  }

  function Min(a: nat, b: nat): nat {
    if a < b then a else b
  }

  function CommonInterfaces(l: seq<InterfaceVersion>, r: seq<InterfaceVersion>): seq<InterfaceVersion> {
    if l == [] then [] else
      var rest, x := CommonInterfaces(l[..|l| - 1], r), l[|l| - 1];
      match Lookup(r, x.id)
      case Ok(version) => rest + [InterfaceVersion(x.id, Min(x.version, version))]
      case Err(_) => rest
  }

  lemma {:induction false} CommonVersionsAreCommon(l: seq<nat>, r: seq<nat>)
    ensures forall v :: v in CommonVersions(l, r) <==> v in l && v in r
    ensures Descending(l) ==> Descending(CommonVersions(l, r))
  {
    if l != [] {
      var n := |l| - 1;
      CommonVersionsAreCommon(l[..n], r);
      assert l == l[..n] + [l[n]];
      if Descending(l) {
        assert forall v | v in l[..n] :: v > l[n];
        assert forall i, j | 0 <= i < j < n :: l[..n][i] > l[..n][j];
        assert forall v | v in CommonVersions(l[..n], r) :: v in l[..n] && v > l[n];
        ghost var rest := CommonVersions(l[..n], r);
        assert forall i | 0 <= i < |rest| :: rest[i] in rest;
      }
    }
  }

  lemma {:induction false} CommonVersionsGrow(l: seq<nat>, r: seq<nat>, i: nat)
    requires i <= |l|
    ensures |CommonVersions(l[..i], r)| <= |CommonVersions(l, r)|
    decreases |l|
  {
    if i < |l| {
      CommonVersionsGrow(l[..|l| - 1], r, i);
      assert l[..|l| - 1][..i] == l[..i];
    } else {
      assert l[..i] == l;
    }
  }

  lemma {:induction false} CommonInterfacesGrow(l: seq<InterfaceVersion>, r: seq<InterfaceVersion>, i: nat)
    requires i <= |l|
    ensures |CommonInterfaces(l[..i], r)| <= |CommonInterfaces(l, r)|
    decreases |l|
  {
    if i < |l| {
      CommonInterfacesGrow(l[..|l| - 1], r, i);
      assert l[..|l| - 1][..i] == l[..i];
    } else {
      assert l[..i] == l;
    }
  }

  lemma {:induction false} LookupLast(table: seq<InterfaceVersion>, id: nat)
    requires table != [] && UniqueIds(table)
    ensures var n := |table| - 1;
            Lookup(table, id) == if table[n].id == id then Ok(table[n].version) else Lookup(table[..n], id)
  {
    var n := |table| - 1;
    if n != 0 && table[0].id != id {
      LookupLast(table[1..], id);
      assert table[1..][..n - 1] == table[..n][1..];
    }
  }

  lemma {:induction false} CommonIdsInLeft(l: seq<InterfaceVersion>, r: seq<InterfaceVersion>)
    ensures forall x | x in CommonInterfaces(l, r) :: exists i :: 0 <= i < |l| && l[i].id == x.id
  {
    if l != [] {
      CommonIdsInLeft(l[..|l| - 1], r);
      forall x | x in CommonInterfaces(l, r) ensures exists i :: 0 <= i < |l| && l[i].id == x.id {
        if x in CommonInterfaces(l[..|l| - 1], r) {
          var i :| 0 <= i < |l| - 1 && l[..|l| - 1][i].id == x.id;
          assert l[i].id == x.id;
        } else {
          assert l[|l| - 1].id == x.id;
        }
      }
    }
  }

  /** The table of the agreement is the pointwise minimum over the ids both tables have. */
  lemma {:induction false} InterfacesArePointwiseMinimum(l: seq<InterfaceVersion>, r: seq<InterfaceVersion>, id: nat)
    requires UniqueIds(l)
    ensures UniqueIds(CommonInterfaces(l, r))
    ensures Lookup(CommonInterfaces(l, r), id) ==
            if Lookup(l, id).Ok? && Lookup(r, id).Ok?
            then Ok(Min(Lookup(l, id).value, Lookup(r, id).value))
            else Err(ErrorNoSupportedInterfaces)
  {
    if l != [] {
      var n, c := |l| - 1, CommonInterfaces(l, r);
      var before := CommonInterfaces(l[..n], r);
      InterfacesArePointwiseMinimum(l[..n], r, id);
      LookupLast(l, id);
      if Lookup(r, l[n].id).Ok? {
        CommonIdsInLeft(l[..n], r);
        assert c[..|before|] == before;
        forall i | 0 <= i < |before| ensures before[i].id != l[n].id {
          assert before[i] in before;
          var j :| 0 <= j < n && l[..n][j].id == before[i].id;
          assert l[j].id == before[i].id;
        }
        LookupLast(c, id);
        if l[n].id == id {
          assert Lookup(l, id) == Ok(l[n].version);
        }
      } else if l[n].id == id {
        NotInPrefix(l, id);
      }
    }
    LookupErrors(l, id);
    LookupErrors(r, id);
    LookupErrors(CommonInterfaces(l, r), id);
  }

  /** Nothing is agreed on exactly when no id of one table is in the other. */
  lemma {:induction false} NoCommonIdsIff(l: seq<InterfaceVersion>, r: seq<InterfaceVersion>)
    ensures CommonInterfaces(l, r) == [] <==> forall x | x in l :: Lookup(r, x.id).Err?
  {
    if l != [] {
      var n := |l| - 1;
      NoCommonIdsIff(l[..n], r);
      assert l == l[..n] + [l[n]];
    }
  }

  lemma NotInPrefix(l: seq<InterfaceVersion>, id: nat)
    requires UniqueIds(l) && l != [] && l[|l| - 1].id == id
    ensures Lookup(l[..|l| - 1], id).Err?
  {
  }

  lemma {:induction false} LookupErrors(table: seq<InterfaceVersion>, id: nat)
    ensures Lookup(table, id).Err? ==> Lookup(table, id) == Err(ErrorNoSupportedInterfaces)
  {
    if table != [] {
      LookupErrors(table[1..], id);
    }
  }

  /** The agreement accepts exactly the flags that both parties accept. */
  lemma AgreementAcceptsIffBothDo(l: Settings, r: Settings, s: Settings, flags: set<Flag>)
    requires s.mandatory == l.mandatory + r.mandatory && s.forbidden == l.forbidden + r.forbidden
    ensures Accepts(s, flags) <==> Accepts(l, flags) && Accepts(r, flags)
  {
  }

  /** The flag demands of two parties clash exactly when no flags at all suit them both. */
  lemma FlagsClashIffNoneSuitsBoth(l: Settings, r: Settings)
    ensures (l.mandatory + r.mandatory) * (l.forbidden + r.forbidden) != {} <==>
            forall flags: set<Flag> :: !(Accepts(l, flags) && Accepts(r, flags))
  {
    var mandatory, forbidden := l.mandatory + r.mandatory, l.forbidden + r.forbidden;
    if mandatory * forbidden == {} {
      forall f | f in mandatory ensures f !in forbidden {
        assert f in forbidden ==> f in mandatory * forbidden;
      }
      assert mandatory * l.mandatory == l.mandatory && mandatory * r.mandatory == r.mandatory;
      assert Accepts(l, mandatory) && Accepts(r, mandatory);
    } else {
      var f :| f in mandatory * forbidden;
      forall flags: set<Flag> ensures !(Accepts(l, flags) && Accepts(r, flags)) {
        if f in l.mandatory {
          assert Accepts(l, flags) ==> f in flags * l.mandatory;
        } else {
          assert Accepts(r, flags) ==> f in flags * r.mandatory;
        }
      }
    }
  }

  // ---------------------------------------------------------------- the parties

  class CspPartySettings {
    var versions: seq<nat>
    var mandatory: set<Flag>
    var forbidden: set<Flag>
    var interfaces: seq<InterfaceVersion>

    function Value(): Settings
      reads this
    {
      Settings(versions, mandatory, forbidden, interfaces)
    }

    constructor ()
      ensures Value() == Settings([], {}, {}, [])
    {
      versions, mandatory, forbidden, interfaces := [], {}, {}, [];
    }

    method Clear()
      modifies this
      ensures Value() == Settings([], {}, {}, [])
    {
      versions, mandatory, forbidden, interfaces := [], {}, {}, [];
    }

    /** Copies the settings; `room` is how many vectors can be copied before memory runs out. */
    method Init(s: Settings, room: nat) returns (status: Status)
      modifies this
      ensures status == if 2 <= room then NoError else ErrorNoMemory
      ensures Value() == if 2 <= room then s
                         else if room == 1 then s.(interfaces := old(interfaces))
                         else old(Value())
    {
      if room == 0 {
        return ErrorNoMemory;
      }
      versions, mandatory, forbidden := s.versions, s.mandatory, s.forbidden;
      if room == 1 {
        return ErrorNoMemory;
      }
      interfaces := s.interfaces;
      status := NoError;
    }

    /** The versions both sides have, in the order of the left one; pushBack succeeds `room` times. */
    method AppendCommonVersions(l: seq<nat>, r: seq<nat>, room: nat) returns (status: Status)
      modifies this`versions
      ensures status == if |CommonVersions(l, r)| <= room then NoError else ErrorNoMemory
      ensures status == NoError ==> versions == old(versions) + CommonVersions(l, r)
    {
      var start := |versions|;
      for i := 0 to |l|
        invariant versions == old(versions) + CommonVersions(l[..i], r)
        invariant |CommonVersions(l[..i], r)| <= room
      {
        assert l[..i + 1][..i] == l[..i];
        var found := false;
        for j := 0 to |r|
          invariant !found && l[i] !in r[..j]
        {
          if l[i] == r[j] {
            found := true;
            break;
          }
        }
        assert found <==> l[i] in r;
        if found {
          if |versions| == start + room {
            CommonVersionsGrow(l, r, i + 1);
            return ErrorNoMemory;
          }
          versions := versions + [l[i]];
        }
      }
      assert l[..|l|] == l;
      status := NoError;
    }

    method AppendCommonInterfaces(l: seq<InterfaceVersion>, r: seq<InterfaceVersion>, room: nat)
        returns (status: Status)
      modifies this`interfaces
      ensures status == if |CommonInterfaces(l, r)| <= room then NoError else ErrorNoMemory
      ensures status == NoError ==> interfaces == old(interfaces) + CommonInterfaces(l, r)
    {
      var start := |interfaces|;
      for i := 0 to |l|
        invariant interfaces == old(interfaces) + CommonInterfaces(l[..i], r)
        invariant |CommonInterfaces(l[..i], r)| <= room
      {
        assert l[..i + 1][..i] == l[..i];
        var j := 0;
        while j < |r| && r[j].id != l[i].id
          invariant j <= |r| && forall k | 0 <= k < j :: r[k].id != l[i].id
        {
          j := j + 1;
        }
        FirstIsLookup(r, l[i].id, j);
        if j < |r| {
          if |interfaces| == start + room {
            CommonInterfacesGrow(l, r, i + 1);
            return ErrorNoMemory;
          }
          var older := if l[i].version < r[j].version then l[i].version else r[j].version;
          interfaces := interfaces + [InterfaceVersion(l[i].id, older)];
        }
      }
      assert l[..|l|] == l;
      status := NoError;
    }

    /** Over settings that have been cleared, or over others; pushBack succeeds `room` times. */
    method GetCompatibleSettings(l: Settings, r: Settings, room: nat) returns (status: Status)
      modifies this
      ensures var common := CommonVersions(l.versions, r.versions);
              var shared := CommonInterfaces(l.interfaces, r.interfaces);
              && status == (if room < |common| then ErrorNoMemory
                            else if old(versions) + common == [] then ErrorNotSupportedProtocolVersion
                            else if (l.mandatory + r.mandatory) * (l.forbidden + r.forbidden) != {} then
                              ErrorNotCompatibleCommonFlagsSettings
                            else if room < |common| + |shared| then ErrorNoMemory
                            else if old(interfaces) + shared == [] then ErrorNoSupportedInterfaces
                            else NoError)
              && (status == NoError ==>
                    && Value() == Settings(old(versions) + common, l.mandatory + r.mandatory,
                                           l.forbidden + r.forbidden, old(interfaces) + shared)
                    && IsValid(Value()))
    {
      status := AppendCommonVersions(l.versions, r.versions, room);
      if status != NoError {
        return;
      }
      if versions == [] {
        return ErrorNotSupportedProtocolVersion;
      }
      mandatory := l.mandatory + r.mandatory;
      forbidden := l.forbidden + r.forbidden;
      if mandatory * forbidden != {} {
        return ErrorNotCompatibleCommonFlagsSettings;
      }
      status := AppendCommonInterfaces(l.interfaces, r.interfaces, room - |CommonVersions(l.versions, r.versions)|);
      if status != NoError {
        return;
      }
      if interfaces == [] {
        return ErrorNoSupportedInterfaces;
      }
    }
  }

  lemma {:induction false} FirstIsLookup(table: seq<InterfaceVersion>, id: nat, j: nat)
    requires j <= |table| && forall k | 0 <= k < j :: table[k].id != id
    requires j < |table| ==> table[j].id == id
    ensures if j < |table| then Lookup(table, id) == Ok(table[j].version) else Lookup(table, id).Err?
  {
    if 0 < j {
      FirstIsLookup(table[1..], id, j - 1);
    }
  }

  /** Two parties have a version and an interface in common, and some flags suit both. */
  ghost predicate Compatible(l: Settings, r: Settings) {
    && (exists v :: v in l.versions && v in r.versions)
    && (l.mandatory + r.mandatory) * (l.forbidden + r.forbidden) == {}
    && exists x :: x in l.interfaces && Lookup(r.interfaces, x.id).Ok?
  }

  lemma CompatibleIffAgreementValid(l: Settings, r: Settings)
    ensures Compatible(l, r) <==> IsValid(Agreement(l, r))
  {
    var versions := CommonVersions(l.versions, r.versions);
    CommonVersionsAreCommon(l.versions, r.versions);
    if versions != [] {
      assert versions[0] in versions;
    }
    NoCommonIdsIff(l.interfaces, r.interfaces);
  }

  /** The server answers both questions, under the greatest version both know, with settings that suit the client's. */
  ghost predicate CanAgree(own: Settings, server: Server) {
    && IsValid(own) && server.versions.Ok?
    && exists version ::
         && IsGreatestCommon(own.versions, server.versions.value, version)
         && server.settings(version).Ok? && Compatible(own, server.settings(version).value)
  }

  /** What the server says when it is asked for its versions, and then for its settings under one of them. */
  datatype Server = Server(versions: Result<seq<nat>>, settings: nat -> Result<Settings>)

  class Client {
    const settings: CspPartySettings
    var isValid: bool

    constructor ()
      ensures !isValid && fresh(settings) && settings.Value() == Settings([], {}, {}, [])
    {
      isValid := false;
      settings := new CspPartySettings();
    }

    /** The newest protocol version both lists have; the lists stand newest first. */
    method ChooseVersion(server: seq<nat>, client: seq<nat>) returns (chosen: nat)
      requires Descending(server) && Descending(client) && forall v | v in server :: v < UNDEFINED_VERSION
      ensures chosen == UNDEFINED_VERSION <==> forall v | v in server :: v !in client
      ensures chosen != UNDEFINED_VERSION ==>
                chosen in server && chosen in client && forall v | v in server && v in client :: v <= chosen
    {
      chosen := UNDEFINED_VERSION;
      for i := 0 to |server|
        invariant chosen == UNDEFINED_VERSION
        invariant forall k | 0 <= k < i :: server[k] !in client
      {
        for j := 0 to |client|
          invariant chosen == UNDEFINED_VERSION
          invariant forall k | 0 <= k < j :: client[k] > server[i]
        {
          if client[j] < server[i] {
            assert forall k | j <= k < |client| :: client[k] < server[i];
            assert forall k | 0 <= k < |client| :: client[k] != server[i];
            break;
          } else if server[i] == client[j] {
            assert server[i] in server && server[i] in client;
            chosen := server[i];
            break;
          }
        }
        assert chosen == UNDEFINED_VERSION ==> server[i] !in client;
        if chosen != UNDEFINED_VERSION {
          assert forall k | i < k < |server| :: server[k] < chosen;
          return;
        }
      }
    }

    /**
      * The two-sided init: the agreement is valid whenever there is one. Memory suffices for `room` elements of the
      * settings.
      */
    method Init(own: Settings, server: Server, room: nat)
        returns (status: Status, offered: seq<nat>, ghost theirs: Settings)
      requires Descending(own.versions)
      requires server.versions.Ok? ==>
                 Descending(server.versions.value) && forall v | v in server.versions.value :: v < UNDEFINED_VERSION
      requires server.versions != Err(NoError) && forall v: nat :: server.settings(v) != Err(NoError)
      modifies this, settings
      ensures old(isValid) ==> status == ErrorAlreadyInited && isValid && settings.Value() == old(settings.Value())
      ensures !old(isValid) ==> (isValid <==> status == NoError)
      ensures !old(isValid) && !IsValid(own) ==> status == ErrorInvalidArgument
      ensures !old(isValid) && IsValid(own) && server.versions.Err? ==> status == server.versions.error
      ensures !old(isValid) && IsValid(own) && server.versions.Ok?
              && (forall v | v in server.versions.value :: v !in own.versions) ==>
                if room == 0 then status == ErrorNoMemory
                else status == ErrorNotSupportedProtocolVersion && offered == server.versions.value
      ensures !old(isValid) && IsValid(own) && server.versions.Ok? ==>
                forall version | IsGreatestCommon(own.versions, server.versions.value, version) ::
                  match server.settings(version)
                  case Err(e) => status == e
                  case Ok(theirs) => status == Verdict(own, theirs, room)
      ensures status == NoError ==>
                && CanAgree(own, server) && IsValid(settings.Value()) && settings.Value() == Agreement(own, theirs)
                && exists version ::
                     && IsGreatestCommon(own.versions, server.versions.value, version)
                     && server.settings(version) == Ok(theirs)
      ensures !old(isValid) && CanAgree(own, server) ==> status == NoError || status == ErrorNoMemory
    {
      offered, theirs := [], own;
      if isValid {
        return ErrorAlreadyInited, offered, theirs;
      }
      if !(own.versions != [] && own.mandatory * own.forbidden == {} && own.interfaces != []) {
        return ErrorInvalidArgument, offered, theirs;
      }
      settings.Clear();
      if server.versions.Err? {
        return server.versions.error, offered, theirs;
      }
      var version := ChooseVersion(server.versions.value, own.versions);
      if version == UNDEFINED_VERSION {
        if room == 0 {
          return ErrorNoMemory, offered, theirs;
        }
        offered := server.versions.value;
        return ErrorNotSupportedProtocolVersion, offered, theirs;
      }
      assert IsGreatestCommon(own.versions, server.versions.value, version);
      var answer := server.settings(version);
      if answer.Err? {
        return answer.error, offered, theirs;
      }
      theirs := answer.value;
      CompatibleIffAgreementValid(own, theirs);
      VerdictOfAgreement(own, theirs, room);
      status := settings.GetCompatibleSettings(own, answer.value, room);
      assert [] + CommonVersions(own.versions, theirs.versions) == CommonVersions(own.versions, theirs.versions);
      assert [] + CommonInterfaces(own.interfaces, theirs.interfaces) ==
             CommonInterfaces(own.interfaces, theirs.interfaces);
      isValid := status == NoError;
    }
  }

  /** What comes of two settings: the first thing that they lack, or that memory has no room for. */
  ghost function Verdict(l: Settings, r: Settings, room: nat): Status {
    if room < |Agreement(l, r).versions| then ErrorNoMemory
    else if forall v | v in l.versions :: v !in r.versions then ErrorNotSupportedProtocolVersion
    else if forall flags: set<Flag> :: !(Accepts(l, flags) && Accepts(r, flags)) then
      ErrorNotCompatibleCommonFlagsSettings
    else if room < |Agreement(l, r).versions| + |Agreement(l, r).interfaces| then ErrorNoMemory
    else if forall x | x in l.interfaces :: Lookup(r.interfaces, x.id).Err? then ErrorNoSupportedInterfaces
    else NoError
  }

  lemma VerdictOfAgreement(l: Settings, r: Settings, room: nat)
    ensures var a := Agreement(l, r);
            Verdict(l, r, room) ==
            if room < |a.versions| then ErrorNoMemory
            else if a.versions == [] then ErrorNotSupportedProtocolVersion
            else if a.mandatory * a.forbidden != {} then ErrorNotCompatibleCommonFlagsSettings
            else if room < |a.versions| + |a.interfaces| then ErrorNoMemory
            else if a.interfaces == [] then ErrorNoSupportedInterfaces
            else NoError
  {
    var common := CommonVersions(l.versions, r.versions);
    CommonVersionsAreCommon(l.versions, r.versions);
    if common != [] {
      assert common[0] in common;
    }
    FlagsClashIffNoneSuitsBoth(l, r);
    NoCommonIdsIff(l.interfaces, r.interfaces);
  }

  predicate IsGreatestCommon(own: seq<nat>, server: seq<nat>, version: nat) {
    version in own && version in server && forall v | v in own && v in server :: v <= version
  }

  function Agreement(l: Settings, r: Settings): Settings {
    Settings(CommonVersions(l.versions, r.versions), l.mandatory + r.mandatory, l.forbidden + r.forbidden,
             CommonInterfaces(l.interfaces, r.interfaces))
  }

  /**
    * The meaning of an agreement: it accepts the flags both parties accept, its versions are the common ones,
    * and each common interface has the older of its two versions.
    */
  lemma AgreementMeans(l: Settings, r: Settings, flags: set<Flag>, version: nat, id: nat)
    requires UniqueIds(l.interfaces)
    ensures var s := Agreement(l, r);
            && (Accepts(s, flags) <==> Accepts(l, flags) && Accepts(r, flags))
            && (version in s.versions <==> version in l.versions && version in r.versions)
            && (Lookup(s.interfaces, id).Ok? <==> Lookup(l.interfaces, id).Ok? && Lookup(r.interfaces, id).Ok?)
            && (Lookup(s.interfaces, id).Ok? ==>
                  Lookup(s.interfaces, id).value == Min(Lookup(l.interfaces, id).value, Lookup(r.interfaces, id).value))
  {
    AgreementAcceptsIffBothDo(l, r, Agreement(l, r), flags);
    CommonVersionsAreCommon(l.versions, r.versions);
    InterfacesArePointwiseMinimum(l.interfaces, r.interfaces, id);
  }
}
