/** Settings: the key-value store that keeps them, and the portal form that overlays them. */
module Config {
  import opened Wrappers
  import opened ArduinoText
  import opened Clock

  datatype Settings = Settings(
    uplinkSsid: string, uplinkEnterprise: bool, uplinkPass: string,
    eapIdentity: string, eapUsername: string, eapPassword: string,
    apSsid: string, apPass: string, apIp: Word, dns: Word, ledBrightness: Byte,
    adminUser: string, adminPass: string)

  // The keys of the NVS namespace, in the order in which save() writes them.
  datatype Key =
    USsid | UEnt | UPass | EapId | EapUser | EapPass | ApSsid | ApPass | ApIp | Dns | LedBri | AdmUser | AdmPass

  datatype Value = Text(text: string) | Flag(flag: bool) | Level(level: Byte)

  type Store = map<Key, Value>

  // The framework's text conversions.
  datatype Platform = Platform(showIp: Word -> string, parseIp: string -> Option<Word>, toInt: string -> int)

  ghost predicate RoundTrips(p: Platform) {
    forall ip: Word :: p.parseIp(p.showIp(ip)) == Some(ip)
  }

  const KEYS: nat := 13

  function Order(k: Key): nat {
    match k
    case USsid => 0 case UEnt => 1 case UPass => 2 case EapId => 3 case EapUser => 4 case EapPass => 5
    case ApSsid => 6 case ApPass => 7 case ApIp => 8 case Dns => 9 case LedBri => 10 case AdmUser => 11 case AdmPass => 12
  }

  function Stored(p: Platform, s: Settings, k: Key): Value {
    match k
    case USsid => Text(s.uplinkSsid)
    case UEnt => Flag(s.uplinkEnterprise)
    case UPass => Text(s.uplinkPass)
    case EapId => Text(s.eapIdentity)
    case EapUser => Text(s.eapUsername)
    case EapPass => Text(s.eapPassword)
    case ApSsid => Text(s.apSsid)
    case ApPass => Text(s.apPass)
    case ApIp => Text(p.showIp(s.apIp))
    case Dns => Text(p.showIp(s.dns))
    case LedBri => Level(s.ledBrightness)
    case AdmUser => Text(s.adminUser)
    case AdmPass => Text(s.adminPass)
  }

  // The store after the first n writes of save().
  function Written(p: Platform, nvs: Store, s: Settings, n: nat): Store {
    map k: Key | k in nvs || Order(k) < n :: if Order(k) < n then Stored(p, s, k) else nvs[k]
  }

  lemma WriteNone(p: Platform, nvs: Store, s: Settings)
    ensures Written(p, nvs, s, 0) == nvs
  {
  }

  // Each write of save() takes the store one step further.
  lemma WriteNext(p: Platform, nvs: Store, s: Settings, key: Key)
    ensures Written(p, nvs, s, Order(key) + 1) == Written(p, nvs, s, Order(key))[key := Stored(p, s, key)]
  {
    forall k: Key | Order(k) == Order(key)
      ensures k == key
    {
    }
  }

  lemma WrittenAt(p: Platform, nvs: Store, s: Settings, n: nat, k: Key)
    ensures Order(k) < n ==> k in Written(p, nvs, s, n) && Written(p, nvs, s, n)[k] == Stored(p, s, k)
    ensures Order(k) >= n && k in nvs ==> k in Written(p, nvs, s, n) && Written(p, nvs, s, n)[k] == nvs[k]
  {
  }

  function GetString(nvs: Store, k: Key, fallback: string): string {
    if k in nvs && nvs[k].Text? then nvs[k].text else fallback
  }

  function GetBool(nvs: Store, k: Key, fallback: bool): bool {
    if k in nvs && nvs[k].Flag? then nvs[k].flag else fallback
  }

  function GetByte(nvs: Store, k: Key, fallback: Byte): Byte {
    if k in nvs && nvs[k].Level? then nvs[k].level else fallback
  }

  function ParsedIp(p: Platform, text: string, fallback: Word): Word {
    match p.parseIp(text) case Some(ip) => ip case None => fallback
  }

  function Loaded(p: Platform, nvs: Store, d: Settings): Settings {
    Settings(
      GetString(nvs, USsid, d.uplinkSsid), GetBool(nvs, UEnt, d.uplinkEnterprise), GetString(nvs, UPass, d.uplinkPass),
      GetString(nvs, EapId, d.eapIdentity), GetString(nvs, EapUser, d.eapUsername), GetString(nvs, EapPass, d.eapPassword),
      GetString(nvs, ApSsid, d.apSsid), GetString(nvs, ApPass, d.apPass),
      ParsedIp(p, GetString(nvs, ApIp, p.showIp(d.apIp)), d.apIp), ParsedIp(p, GetString(nvs, Dns, p.showIp(d.dns)), d.dns),
      GetByte(nvs, LedBri, d.ledBrightness), GetString(nvs, AdmUser, d.adminUser), GetString(nvs, AdmPass, d.adminPass))
  }

  // The settings and the store after begin().
  function Begun(p: Platform, nvs: Store, d: Settings): (Settings, Store) {
    if USsid in nvs then (Loaded(p, nvs, d), nvs) else (d, Written(p, nvs, d, KEYS))
  }

  // What a deployed router must not lose.
  predicate Usable(s: Settings) {
    Complete(s) && (s.uplinkEnterprise ==> s.eapUsername != "")
  }

  // All of it but the username that enterprise mode needs.
  predicate Complete(s: Settings) {
    && s.uplinkSsid != "" && s.apSsid != "" && s.adminUser != "" && s.adminPass != ""
    && |s.apPass| >= 8
  }

  // ---- The form --------------------------------------------------------------

  type Form = map<string, string>

  function Arg(form: Form, name: string): string {
    if name in form then form[name] else ""
  }

  datatype Problem =
    NoUplinkSsid | NoApSsid | NoAdminUser | BadApIp | BadDns | ShortApPass | NoEapUser

  // The first complaint about a form, in the order in which they are checked.
  function Complaint(p: Platform, s: Settings, form: Form): Option<Problem> {
    if Trim(Arg(form, "uSsid")) == "" then Some(NoUplinkSsid)
    else if Trim(Arg(form, "apSsid")) == "" then Some(NoApSsid)
    else if Trim(Arg(form, "admUser")) == "" then Some(NoAdminUser)
    else if p.parseIp(Arg(form, "apIp")).None? then Some(BadApIp)
    else if p.parseIp(Arg(form, "dns")).None? then Some(BadDns)
    else if 0 < |Arg(form, "apPass")| < 8 then Some(ShortApPass)
    else if Arg(form, "uAuth") == "ent" && Arg(form, "eapUser") == "" && s.eapUsername == "" then Some(NoEapUser)
    else None
  }

  function Replaced(form: Form, name: string, current: string): string {
    if |Arg(form, name)| > 0 then Arg(form, name) else current
  }

  function Clamped(n: int): Byte {
    if n < 0 then 0 else if n > 255 then 255 else n
  }

  function Overlaid(p: Platform, s: Settings, form: Form): Settings
    requires Complaint(p, s, form).None?
  {
    Settings(
      Trim(Arg(form, "uSsid")),
      if "uAuth" in form then form["uAuth"] == "ent" else s.uplinkEnterprise,
      Replaced(form, "uPass", s.uplinkPass), Replaced(form, "eapId", s.eapIdentity),
      Replaced(form, "eapUser", s.eapUsername), Replaced(form, "eapPass", s.eapPassword),
      Trim(Arg(form, "apSsid")), Replaced(form, "apPass", s.apPass),
      p.parseIp(Arg(form, "apIp")).value, p.parseIp(Arg(form, "dns")).value,
      Clamped(p.toInt(Arg(form, "ledBri"))),
      Trim(Arg(form, "admUser")), Replaced(form, "admPass", s.adminPass))
  }

  // What a form says, in its own terms.
  function Said(form: Form, name: string): string {
    if name in form then form[name] else ""
  }

  // This reason to refuse the form applies.
  predicate Faulty(p: Platform, s: Settings, form: Form, problem: Problem) {
    match problem
    case NoUplinkSsid => "uSsid" !in form || Trim(form["uSsid"]) == ""
    case NoApSsid => "apSsid" !in form || Trim(form["apSsid"]) == ""
    case NoAdminUser => "admUser" !in form || Trim(form["admUser"]) == ""
    case BadApIp => p.parseIp(Said(form, "apIp")).None?
    case BadDns => p.parseIp(Said(form, "dns")).None?
    case ShortApPass => "apPass" in form && 1 <= |form["apPass"]| <= 7
    case NoEapUser =>
      && "uAuth" in form && form["uAuth"] == "ent"
      && ("eapUser" !in form || form["eapUser"] == "") && s.eapUsername == ""
  }

  function Rank(problem: Problem): nat {
    match problem
    case NoUplinkSsid => 0 case NoApSsid => 1 case NoAdminUser => 2 case BadApIp => 3 case BadDns => 4
    case ShortApPass => 5 case NoEapUser => 6
  }

  // The first reason to refuse the form, or none exactly if none applies.
  ghost predicate Judged(p: Platform, s: Settings, form: Form, problem: Option<Problem>) {
    match problem
    case None => forall q: Problem :: !Faulty(p, s, form, q)
    case Some(first) => Faulty(p, s, form, first) && forall q: Problem | Faulty(p, s, form, q) :: Rank(first) <= Rank(q)
  }

  // The credential is the one the form carries, or the one before if it carries none.
  predicate Credential(form: Form, name: string, before: string, after: string) {
    after == if name in form && form[name] != "" then form[name] else before
  }

  // Everything the form says is in force, and nothing else has changed.
  predicate InForce(p: Platform, s: Settings, form: Form, n: Settings) {
    && "uSsid" in form && n.uplinkSsid == Trim(form["uSsid"])
    && "apSsid" in form && n.apSsid == Trim(form["apSsid"])
    && "admUser" in form && n.adminUser == Trim(form["admUser"])
    && p.parseIp(Said(form, "apIp")) == Some(n.apIp)
    && p.parseIp(Said(form, "dns")) == Some(n.dns)
    && n.uplinkEnterprise == (if "uAuth" in form then form["uAuth"] == "ent" else s.uplinkEnterprise)
    && Credential(form, "uPass", s.uplinkPass, n.uplinkPass)
    && Credential(form, "eapId", s.eapIdentity, n.eapIdentity)
    && Credential(form, "eapUser", s.eapUsername, n.eapUsername)
    && Credential(form, "eapPass", s.eapPassword, n.eapPassword)
    && Credential(form, "apPass", s.apPass, n.apPass)
    && Credential(form, "admPass", s.adminPass, n.adminPass)
    && (var level := p.toInt(Said(form, "ledBri"));
        n.ledBrightness == if level < 0 then 0 else if level > 255 then 255 else level)
  }

  /** A form is refused only for one of seven reasons, the first that applies. */
  lemma ComplaintExact(p: Platform, s: Settings, form: Form)
    ensures Judged(p, s, form, Complaint(p, s, form))
  {
  }

  /** An accepted form takes effect, field by field. */
  lemma OverlayExact(p: Platform, s: Settings, form: Form)
    requires Complaint(p, s, form).None?
    ensures InForce(p, s, form, Overlaid(p, s, form))
  {
  }

  // Each setting is in the store under its own key.
  predicate Holds(p: Platform, nvs: Store, s: Settings) {
    && USsid in nvs && nvs[USsid] == Text(s.uplinkSsid)
    && UEnt in nvs && nvs[UEnt] == Flag(s.uplinkEnterprise)
    && UPass in nvs && nvs[UPass] == Text(s.uplinkPass)
    && EapId in nvs && nvs[EapId] == Text(s.eapIdentity)
    && EapUser in nvs && nvs[EapUser] == Text(s.eapUsername)
    && EapPass in nvs && nvs[EapPass] == Text(s.eapPassword)
    && ApSsid in nvs && nvs[ApSsid] == Text(s.apSsid)
    && ApPass in nvs && nvs[ApPass] == Text(s.apPass)
    && ApIp in nvs && nvs[ApIp] == Text(p.showIp(s.apIp))
    && Dns in nvs && nvs[Dns] == Text(p.showIp(s.dns))
    && LedBri in nvs && nvs[LedBri] == Level(s.ledBrightness)
    && AdmUser in nvs && nvs[AdmUser] == Text(s.adminUser)
    && AdmPass in nvs && nvs[AdmPass] == Text(s.adminPass)
  }

  lemma AllStored(p: Platform, w: Store, s: Settings)
    requires forall k: Key :: k in w && w[k] == Stored(p, s, k)
    ensures Holds(p, w, s)
  {
  }

  lemma SaveHolds(p: Platform, nvs: Store, s: Settings)
    ensures Holds(p, Written(p, nvs, s, KEYS), s)
  {
    forall k: Key
      ensures k in Written(p, nvs, s, KEYS) && Written(p, nvs, s, KEYS)[k] == Stored(p, s, k)
    {
      WrittenAt(p, nvs, s, KEYS, k);
    }
    AllStored(p, Written(p, nvs, s, KEYS), s);
  }

  predicate SameType(a: Value, b: Value) {
    a.Text? == b.Text? && a.Flag? == b.Flag? && a.Level? == b.Level?
  }

  /** What begin() makes of a provisioned store, key by key: a value of the right type is in force, and
      without one the default; an address, if its text is one. */
  lemma BeginExact(p: Platform, nvs: Store, d: Settings, k: Key)
    requires USsid in nvs && RoundTrips(p)
    ensures k !in nvs || !SameType(nvs[k], Stored(p, d, k)) ==> Stored(p, Begun(p, nvs, d).0, k) == Stored(p, d, k)
    ensures k in nvs && SameType(nvs[k], Stored(p, d, k)) && k != ApIp && k != Dns ==>
              Stored(p, Begun(p, nvs, d).0, k) == nvs[k]
    ensures k in nvs && nvs[k].Text? && k == ApIp ==>
              Begun(p, nvs, d).0.apIp == match p.parseIp(nvs[k].text) case Some(ip) => ip case None => d.apIp
    ensures k in nvs && nvs[k].Text? && k == Dns ==>
              Begun(p, nvs, d).0.dns == match p.parseIp(nvs[k].text) case Some(ip) => ip case None => d.dns
  {
  }

  class ConfigStore {
    const p: Platform
    const defaults: Settings
    var settings: Settings
    var nvs: Store

    constructor (p: Platform, defaults: Settings, nvs: Store)
      ensures this.p == p && this.defaults == defaults && this.nvs == nvs
    {
      this.p, this.defaults, this.settings, this.nvs := p, defaults, defaults, nvs;
    }

    method Begin()
      modifies this
      ensures (settings, nvs) == Begun(p, old(nvs), defaults)
    {
      settings := defaults;
      if USsid !in nvs {
        Save();
        return;
      }
      var s := settings;
      settings := s.(
        uplinkSsid := GetString(nvs, USsid, s.uplinkSsid), uplinkEnterprise := GetBool(nvs, UEnt, s.uplinkEnterprise),
        uplinkPass := GetString(nvs, UPass, s.uplinkPass), eapIdentity := GetString(nvs, EapId, s.eapIdentity),
        eapUsername := GetString(nvs, EapUser, s.eapUsername), eapPassword := GetString(nvs, EapPass, s.eapPassword),
        apSsid := GetString(nvs, ApSsid, s.apSsid), apPass := GetString(nvs, ApPass, s.apPass),
        apIp := ParsedIp(p, GetString(nvs, ApIp, p.showIp(s.apIp)), s.apIp),
        dns := ParsedIp(p, GetString(nvs, Dns, p.showIp(s.dns)), s.dns),
        ledBrightness := GetByte(nvs, LedBri, s.ledBrightness),
        adminUser := GetString(nvs, AdmUser, s.adminUser), adminPass := GetString(nvs, AdmPass, s.adminPass));
    }

    // One write of save(), which started from the store `before`.
    method Put(key: Key, value: Value, ghost before: Store, ghost s: Settings)
      requires value == Stored(p, s, key)
      requires nvs == Written(p, before, s, Order(key))
      modifies this`nvs
      ensures nvs == Written(p, before, s, Order(key) + 1)
    {
      WriteNext(p, before, s, key);
      nvs := nvs[key := value];
    }

    method Save()
      modifies this`nvs
      ensures nvs == Written(p, old(nvs), settings, KEYS)
      ensures Holds(p, nvs, settings)
    {
      SaveHolds(p, nvs, settings);
      WriteNone(p, nvs, settings);
      SaveUplink(settings, nvs);
      SaveEap(settings, old(nvs));
      SaveSoftAp(settings, old(nvs));
      SaveLogin(settings, old(nvs));
    }

    // The first part of save(): the upstream network.
    method SaveUplink(s: Settings, ghost before: Store)
      requires nvs == Written(p, before, s, Order(USsid))
      modifies this`nvs
      ensures nvs == Written(p, before, s, Order(EapId))
    {
      Put(USsid, Text(s.uplinkSsid), before, s);
      Put(UEnt, Flag(s.uplinkEnterprise), before, s);
      Put(UPass, Text(s.uplinkPass), before, s);
    }

    // Its second part: the enterprise login to it.
    method SaveEap(s: Settings, ghost before: Store)
      requires nvs == Written(p, before, s, Order(EapId))
      modifies this`nvs
      ensures nvs == Written(p, before, s, Order(ApSsid))
    {
      Put(EapId, Text(s.eapIdentity), before, s);
      Put(EapUser, Text(s.eapUsername), before, s);
      Put(EapPass, Text(s.eapPassword), before, s);
    }

    // Its third part: the private network.
    method SaveSoftAp(s: Settings, ghost before: Store)
      requires nvs == Written(p, before, s, Order(ApSsid))
      modifies this`nvs
      ensures nvs == Written(p, before, s, Order(LedBri))
    {
      Put(ApSsid, Text(s.apSsid), before, s);
      Put(ApPass, Text(s.apPass), before, s);
      Put(ApIp, Text(p.showIp(s.apIp)), before, s);
      Put(Dns, Text(p.showIp(s.dns)), before, s);
    }

    // Its fourth part: the LED and the login.
    method SaveLogin(s: Settings, ghost before: Store)
      requires nvs == Written(p, before, s, Order(LedBri))
      modifies this`nvs
      ensures nvs == Written(p, before, s, KEYS)
    {
      Put(LedBri, Level(s.ledBrightness), before, s);
      Put(AdmUser, Text(s.adminUser), before, s);
      Put(AdmPass, Text(s.adminPass), before, s);
    }

    method FactoryReset()
      modifies this
      ensures settings == defaults && nvs == Written(p, map[], defaults, KEYS)
      ensures Holds(p, nvs, defaults)
    {
      nvs := map[];
      settings := defaults;
      Save();
    }

    /** The save form. A form with a complaint, or without a login, changes nothing. */
    method HandleSave(authed: bool, form: Form) returns (problem: Option<Problem>)
      modifies this
      ensures authed ==> problem == Complaint(p, old(settings), form)
      ensures authed && problem.None? ==>
                settings == Overlaid(p, old(settings), form) && nvs == Written(p, old(nvs), settings, KEYS)
      ensures !authed || problem.Some? ==> settings == old(settings) && nvs == old(nvs)
      ensures authed ==> Judged(p, old(settings), form, problem)
      ensures authed && problem.None? ==> InForce(p, old(settings), form, settings) && Holds(p, nvs, settings)
      ensures authed && problem.None? && RoundTrips(p) ==> Begun(p, nvs, defaults) == (settings, nvs)
    {
      if !authed {
        return None;
      }
      ComplaintExact(p, settings, form);
      problem := Check(form);
      if problem.Some? {
        return;
      }
      OverlayExact(p, settings, form);
      settings := Overlay(form);
      Save();
      SaveHolds(p, old(nvs), settings);
      if RoundTrips(p) {
        SaveRestores(p, old(nvs), settings, defaults);
      }
    }

    // The validation chain of the save handler.
    method Check(form: Form) returns (problem: Option<Problem>)
      ensures problem == Complaint(p, settings, form)
    {
      var apPass := Arg(form, "apPass");
      if Trim(Arg(form, "uSsid")) == "" {
        return Some(NoUplinkSsid);
      } else if Trim(Arg(form, "apSsid")) == "" {
        return Some(NoApSsid);
      } else if Trim(Arg(form, "admUser")) == "" {
        return Some(NoAdminUser);
      } else if p.parseIp(Arg(form, "apIp")).None? {
        return Some(BadApIp);
      } else if p.parseIp(Arg(form, "dns")).None? {
        return Some(BadDns);
      } else if |apPass| > 0 && |apPass| < 8 {
        return Some(ShortApPass);
      } else if Arg(form, "uAuth") == "ent" && Arg(form, "eapUser") == "" && settings.eapUsername == "" {
        return Some(NoEapUser);
      }
      return None;
    }

    // The overlay of the save handler: from the current settings, field by field.
    method Overlay(form: Form) returns (n: Settings)
      requires Complaint(p, settings, form).None?
      ensures n == Overlaid(p, settings, form)
    {
      n := settings;
      n := n.(uplinkSsid := Trim(Arg(form, "uSsid")));
      if "uAuth" in form {
        n := n.(uplinkEnterprise := Arg(form, "uAuth") == "ent");
      }
      n := n.(uplinkPass := Replaced(form, "uPass", n.uplinkPass));
      n := n.(eapIdentity := Replaced(form, "eapId", n.eapIdentity));
      n := n.(eapUsername := Replaced(form, "eapUser", n.eapUsername));
      n := n.(eapPassword := Replaced(form, "eapPass", n.eapPassword));
      n := n.(apSsid := Trim(Arg(form, "apSsid")));
      if |Arg(form, "apPass")| >= 8 {
        n := n.(apPass := Arg(form, "apPass"));
      }
      n := n.(apIp := p.parseIp(Arg(form, "apIp")).value, dns := p.parseIp(Arg(form, "dns")).value);
      n := n.(ledBrightness := Clamped(p.toInt(Arg(form, "ledBri"))));
      n := n.(adminUser := Trim(Arg(form, "admUser")));
      n := n.(adminPass := Replaced(form, "admPass", n.adminPass));
    }
  }

  // ---- Runs ------------------------------------------------------------------

  // A power loss may cut a save, or the reseeding of a cleared store, short after n of its writes; the
  // board then boots.
  datatype Op =
    | SaveForm(authed: bool, form: Form)
    | Reboot
    | FactoryReset
    | CutSave(authed: bool, form: Form, n: nat)
    | CutReset(n: nat)

  predicate Accepted(p: Platform, s: Settings, authed: bool, form: Form) {
    authed && Complaint(p, s, form).None?
  }

  function Done(p: Platform, d: Settings, s: Settings, nvs: Store, op: Op): (Settings, Store) {
    match op
    case SaveForm(authed, form) =>
      if Accepted(p, s, authed, form) then (Overlaid(p, s, form), Written(p, nvs, Overlaid(p, s, form), KEYS)) else (s, nvs)
    case Reboot => Begun(p, nvs, d)
    case FactoryReset => (d, Written(p, map[], d, KEYS))
    case CutSave(authed, form, n) =>
      Begun(p, if Accepted(p, s, authed, form) then Written(p, nvs, Overlaid(p, s, form), n) else nvs, d)
    case CutReset(n) => Begun(p, Written(p, map[], d, n), d)
  }

  function After(p: Platform, d: Settings, ops: seq<Op>): (Settings, Store)
    decreases |ops|
  {
    if ops == [] then Begun(p, map[], d)
    else
      var (s, nvs) := After(p, d, ops[..|ops| - 1]);
      Done(p, d, s, nvs, ops[|ops| - 1])
  }

  /** What save() wrote, begin() restores, whatever was in the store before. */
  lemma SaveRestores(p: Platform, nvs: Store, s: Settings, d: Settings)
    requires RoundTrips(p)
    ensures Begun(p, Written(p, nvs, s, KEYS), d) == (s, Written(p, nvs, s, KEYS))
  {
    WrittenAt(p, nvs, s, KEYS, USsid);
    LoadedMixed(p, nvs, Loaded(p, nvs, d), s, d, KEYS);
  }

  /** An accepted form keeps usable settings usable, whatever it leaves out. */
  lemma OverlayKeepsUsable(p: Platform, s: Settings, form: Form)
    requires Usable(s) && Complaint(p, s, form).None?
    ensures Usable(Overlaid(p, s, form))
  {
    if "uAuth" in form {
      assert Arg(form, "uAuth") == form["uAuth"];
    }
  }

  /** An accepted form never blanks a credential: each one is either unchanged or the non-empty value
      that the form carried, and the security mode changes only if the form said so. */
  lemma OverlayKeepsOmitted(p: Platform, s: Settings, form: Form)
    requires Complaint(p, s, form).None?
    ensures var n := Overlaid(p, s, form);
            && (n.uplinkPass != s.uplinkPass ==> n.uplinkPass == Arg(form, "uPass") != "")
            && (n.eapIdentity != s.eapIdentity ==> n.eapIdentity == Arg(form, "eapId") != "")
            && (n.eapUsername != s.eapUsername ==> n.eapUsername == Arg(form, "eapUser") != "")
            && (n.eapPassword != s.eapPassword ==> n.eapPassword == Arg(form, "eapPass") != "")
            && (n.apPass != s.apPass ==> n.apPass == Arg(form, "apPass") && |n.apPass| >= 8)
            && (n.adminPass != s.adminPass ==> n.adminPass == Arg(form, "admPass") != "")
            && (n.uplinkEnterprise != s.uplinkEnterprise ==> "uAuth" in form)
  {
  }

  // The first n fields written of `next`, and the others of s.
  function Mixed(s: Settings, next: Settings, n: nat): Settings {
    Settings(
      if n > 0 then next.uplinkSsid else s.uplinkSsid, if n > 1 then next.uplinkEnterprise else s.uplinkEnterprise,
      if n > 2 then next.uplinkPass else s.uplinkPass, if n > 3 then next.eapIdentity else s.eapIdentity,
      if n > 4 then next.eapUsername else s.eapUsername, if n > 5 then next.eapPassword else s.eapPassword,
      if n > 6 then next.apSsid else s.apSsid, if n > 7 then next.apPass else s.apPass,
      if n > 8 then next.apIp else s.apIp, if n > 9 then next.dns else s.dns,
      if n > 10 then next.ledBrightness else s.ledBrightness,
      if n > 11 then next.adminUser else s.adminUser, if n > 12 then next.adminPass else s.adminPass)
  }

  // The store from which begin() loads these settings, leaving it alone.
  ghost predicate Keeps(p: Platform, d: Settings, nvs: Store, s: Settings) {
    USsid in nvs && Loaded(p, nvs, d) == s
  }

  lemma CutText(p: Platform, nvs: Store, next: Settings, n: nat, k: Key, fallback: string)
    requires Stored(p, next, k).Text?
    ensures GetString(Written(p, nvs, next, n), k, fallback)
            == if Order(k) < n then Stored(p, next, k).text else GetString(nvs, k, fallback)
  {
    WrittenAt(p, nvs, next, n, k);
  }

  lemma LoadedMixedUplink(p: Platform, nvs: Store, next: Settings, d: Settings, n: nat)
    ensures var w, m := Loaded(p, Written(p, nvs, next, n), d), Mixed(Loaded(p, nvs, d), next, n);
            && w.uplinkSsid == m.uplinkSsid && w.uplinkEnterprise == m.uplinkEnterprise && w.uplinkPass == m.uplinkPass
            && w.eapIdentity == m.eapIdentity && w.eapUsername == m.eapUsername && w.eapPassword == m.eapPassword
  {
    CutText(p, nvs, next, n, USsid, d.uplinkSsid);
    WrittenAt(p, nvs, next, n, UEnt);
    CutText(p, nvs, next, n, UPass, d.uplinkPass);
    CutText(p, nvs, next, n, EapId, d.eapIdentity);
    CutText(p, nvs, next, n, EapUser, d.eapUsername);
    CutText(p, nvs, next, n, EapPass, d.eapPassword);
  }

  lemma LoadedMixedLocal(p: Platform, nvs: Store, next: Settings, d: Settings, n: nat)
    requires RoundTrips(p)
    ensures var w, m := Loaded(p, Written(p, nvs, next, n), d), Mixed(Loaded(p, nvs, d), next, n);
            && w.apSsid == m.apSsid && w.apPass == m.apPass && w.apIp == m.apIp && w.dns == m.dns
            && w.ledBrightness == m.ledBrightness && w.adminUser == m.adminUser && w.adminPass == m.adminPass
  {
    CutText(p, nvs, next, n, ApSsid, d.apSsid);
    CutText(p, nvs, next, n, ApPass, d.apPass);
    CutText(p, nvs, next, n, ApIp, p.showIp(d.apIp));
    CutText(p, nvs, next, n, Dns, p.showIp(d.dns));
    WrittenAt(p, nvs, next, n, LedBri);
    CutText(p, nvs, next, n, AdmUser, d.adminUser);
    CutText(p, nvs, next, n, AdmPass, d.adminPass);
  }

  lemma LoadedMixed(p: Platform, nvs: Store, s: Settings, next: Settings, d: Settings, n: nat)
    requires RoundTrips(p) && Loaded(p, nvs, d) == s
    ensures Loaded(p, Written(p, nvs, next, n), d) == Mixed(s, next, n)
  {
    LoadedMixedUplink(p, nvs, next, d, n);
    LoadedMixedLocal(p, nvs, next, d, n);
  }

  /** What a save cut short leaves, exactly: the board boots with the fields already written in their new
      value and the others in their old one. */
  lemma CutSaveMixes(p: Platform, nvs: Store, s: Settings, next: Settings, d: Settings, n: nat)
    requires RoundTrips(p) && Keeps(p, d, nvs, s)
    ensures Begun(p, Written(p, nvs, next, n), d).0 == Mixed(s, next, n)
    ensures Keeps(p, d, Written(p, nvs, next, n), Mixed(s, next, n))
  {
    LoadedMixed(p, nvs, s, next, d, n);
    WrittenAt(p, nvs, next, n, USsid);
  }

  /** A seeding cut short, of a blank store at first boot or of one that a factory reset has cleared, does no
      harm: the board boots with the defaults. */
  lemma CutSeedRestores(p: Platform, d: Settings, n: nat)
    requires RoundTrips(p)
    ensures Begun(p, Written(p, map[], d, n), d).0 == d
    ensures Keeps(p, d, Begun(p, Written(p, map[], d, n), d).1, d)
  {
    var w := Written(p, map[], d, n);
    assert Loaded(p, map[], d) == d;
    LoadedMixed(p, map[], d, d, d, n);
    if USsid !in w {
      SaveRestores(p, w, d, d);
    }
  }

  // This operation cuts a save short between writing enterprise mode and writing the username it needs,
  // and introduces both.
  predicate BadCut(p: Platform, s: Settings, op: Op) {
    && op.CutSave? && Accepted(p, s, op.authed, op.form)
    && Order(UEnt) < op.n <= Order(EapUser)
    && Overlaid(p, s, op.form).uplinkEnterprise && s.eapUsername == ""
  }

  predicate BadCutAt(p: Platform, d: Settings, ops: seq<Op>, i: nat)
    requires i < |ops|
  {
    BadCut(p, After(p, d, ops[..i]).0, ops[i])
  }

  lemma OverlayComplete(p: Platform, s: Settings, form: Form)
    requires Complete(s) && Complaint(p, s, form).None?
    ensures Complete(Overlaid(p, s, form))
  {
  }

  lemma DoneKeeps(p: Platform, d: Settings, s: Settings, nvs: Store, op: Op)
    requires RoundTrips(p) && Keeps(p, d, nvs, s)
    ensures Keeps(p, d, Done(p, d, s, nvs, op).1, Done(p, d, s, nvs, op).0)
    ensures op.CutSave? && Accepted(p, s, op.authed, op.form) ==>
              Done(p, d, s, nvs, op).0 == Mixed(s, Overlaid(p, s, op.form), op.n)
    ensures op.CutSave? && !Accepted(p, s, op.authed, op.form) ==> Done(p, d, s, nvs, op).0 == s
    ensures op.CutReset? ==> Done(p, d, s, nvs, op).0 == d
  {
    match op {
      case SaveForm(authed, form) =>
        if Accepted(p, s, authed, form) {
          SaveRestores(p, nvs, Overlaid(p, s, form), d);
          WrittenAt(p, nvs, Overlaid(p, s, form), KEYS, USsid);
        }
      case Reboot =>
      case FactoryReset =>
        SaveRestores(p, map[], d, d);
        WrittenAt(p, map[], d, KEYS, USsid);
      case CutSave(authed, form, n) =>
        if Accepted(p, s, authed, form) {
          CutSaveMixes(p, nvs, s, Overlaid(p, s, form), d, n);
        }
      case CutReset(n) => CutSeedRestores(p, d, n);
    }
  }

  lemma MixedUsable(s: Settings, next: Settings, n: nat)
    requires Complete(s) && Complete(next)
    ensures Complete(Mixed(s, next, n))
    ensures Usable(s) && Usable(next) ==>
              (Usable(Mixed(s, next, n))
               <==> !(Order(UEnt) < n <= Order(EapUser) && next.uplinkEnterprise && s.eapUsername == ""))
  {
  }

  lemma DoneUsable(p: Platform, d: Settings, s: Settings, nvs: Store, op: Op)
    requires RoundTrips(p) && Usable(d) && Keeps(p, d, nvs, s) && Complete(s)
    ensures Complete(Done(p, d, s, nvs, op).0)
    ensures Usable(s) ==> (Usable(Done(p, d, s, nvs, op).0) <==> !BadCut(p, s, op))
  {
    DoneKeeps(p, d, s, nvs, op);
    if (op.SaveForm? || op.CutSave?) && Accepted(p, s, op.authed, op.form) {
      OverlayComplete(p, s, op.form);
      if Usable(s) {
        OverlayKeepsUsable(p, s, op.form);
      }
      if op.CutSave? {
        MixedUsable(s, Overlaid(p, s, op.form), op.n);
      }
    }
  }

  /** Over any sequence of forms, reboots, factory resets and power losses in the middle of them, from
      usable defaults: the network names, the login and the password of the private network are never
      lost, and the store always holds exactly the settings in force, so a reboot changes nothing. */
  lemma {:induction false} AlwaysComplete(p: Platform, d: Settings, ops: seq<Op>)
    requires RoundTrips(p) && Usable(d)
    ensures Complete(After(p, d, ops).0) && Keeps(p, d, After(p, d, ops).1, After(p, d, ops).0)
    ensures Begun(p, After(p, d, ops).1, d) == After(p, d, ops)
    decreases |ops|
  {
    if ops == [] {
      SaveRestores(p, map[], d, d);
      WrittenAt(p, map[], d, KEYS, USsid);
    } else {
      var front := ops[..|ops| - 1];
      AlwaysComplete(p, d, front);
      var (s, nvs) := After(p, d, front);
      DoneKeeps(p, d, s, nvs, ops[|ops| - 1]);
      DoneUsable(p, d, s, nvs, ops[|ops| - 1]);
    }
  }

  ghost predicate UsableThroughout(p: Platform, d: Settings, ops: seq<Op>) {
    forall i: nat | i <= |ops| :: UsableAt(p, d, ops, i)
  }

  predicate UsableAt(p: Platform, d: Settings, ops: seq<Op>, i: nat)
    requires i <= |ops|
  {
    Usable(After(p, d, ops[..i]).0)
  }

  lemma {:induction false} UsableUpTo(p: Platform, d: Settings, ops: seq<Op>, i: nat)
    requires RoundTrips(p) && Usable(d) && i <= |ops|
    requires forall j: nat | j < i :: !BadCutAt(p, d, ops, j)
    ensures UsableAt(p, d, ops, i)
    decreases i
  {
    if i == 0 {
      assert ops[..0] == [];
    } else {
      UsableUpTo(p, d, ops, i - 1);
      CutDecides(p, d, ops, i - 1);
    }
  }

  lemma CutDecides(p: Platform, d: Settings, ops: seq<Op>, i: nat)
    requires RoundTrips(p) && Usable(d) && i < |ops| && UsableAt(p, d, ops, i)
    ensures UsableAt(p, d, ops, i + 1) <==> !BadCutAt(p, d, ops, i)
  {
    assert ops[..i + 1][..i] == ops[..i];
    AlwaysComplete(p, d, ops[..i]);
    var (s, nvs) := After(p, d, ops[..i]);
    DoneUsable(p, d, s, nvs, ops[i]);
  }

  /** And they stay usable throughout if and only if no save is cut short between writing enterprise mode
      and the username it needs while introducing both; in particular without any power loss. */
  lemma AlwaysUsable(p: Platform, d: Settings, ops: seq<Op>)
    requires RoundTrips(p) && Usable(d)
    ensures UsableThroughout(p, d, ops) <==> forall i: nat | i < |ops| :: !BadCutAt(p, d, ops, i)
    ensures (forall op | op in ops :: !op.CutSave?) ==> UsableThroughout(p, d, ops)
  {
    if forall i: nat | i < |ops| :: !BadCutAt(p, d, ops, i) {
      forall i: nat | i <= |ops|
        ensures UsableAt(p, d, ops, i)
      {
        UsableUpTo(p, d, ops, i);
      }
    } else {
      var i: nat :| i < |ops| && BadCutAt(p, d, ops, i);
      if UsableAt(p, d, ops, i) {
        CutDecides(p, d, ops, i);
      }
    }
  }

  /** A save cut short by a power loss after n of its 13 writes. The board comes back with settings
      that are usable if and only if the cut did not fall between writing enterprise mode and writing
      the username it needs, in a save that introduces both. */
  lemma TornSaveExact(p: Platform, nvs: Store, s: Settings, next: Settings, d: Settings, n: nat)
    requires RoundTrips(p) && Usable(s) && Usable(next)
    requires Keeps(p, d, nvs, s)
    ensures Usable(Begun(p, Written(p, nvs, next, n), d).0)
            <==> !(Order(UEnt) < n <= Order(EapUser) && next.uplinkEnterprise && s.eapUsername == "")
  {
    CutSaveMixes(p, nvs, s, next, d, n);
    MixedUsable(s, next, n);
  }
}
