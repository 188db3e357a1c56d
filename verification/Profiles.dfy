/** Runtime profiles: named sets of per-camera overrides, one of which may be active. */
module Profiles {
  import opened Base
  import opened SecretTemplate

  const MAX_PROFILES := 32
  const MAX_PROFILE_TARGETS := 127
  const MAX_REVISION: nat := 0x7FFF_FFFF_FFFF_FFFF

  datatype RecordingMode = Off | Sub | Main | Both | EventBoost | EventOnly

  datatype Override = Override(
    availability: Option<bool>,
    recording: Option<RecordingMode>,
    privacy: Option<bool>,
    suppressed: Option<bool>)

  datatype Profile = Profile(id: string, name: string, revision: nat, cameras: map<string, Override>)

  datatype Registry = Registry(revision: nat, active: Option<string>, profiles: map<string, Profile>)

  predicate IsControl(c: char) { c < 32 as char || 127 as char <= c < 160 as char }

  predicate IsSpace(c: char) {
    || c == ' ' || 9 as char <= c <= 13 as char || c == 0x85 as char || c == 0xA0 as char || c == 0x1680 as char
    || 0x2000 as char <= c <= 0x200A as char
    || c in [0x2028 as char, 0x2029 as char, 0x202F as char, 0x205F as char, 0x3000 as char]
  }

  predicate ValidLabel(s: string, maxBytes: nat) {
    && (exists i :: 0 <= i < |s| && !IsSpace(s[i]))
    && |Bytes(s)| <= maxBytes
    && forall i :: 0 <= i < |s| ==> !IsControl(s[i])
  }

  predicate ValidProfileId(id: string) {
    && 0 < |id| <= 128 && id != "." && id != ".."
    && forall i :: 0 <= i < |id| ==> IdChar(id[i])
  }

  predicate IdChar(c: char) { IsUpper(c) || IsDigit(c) || 'a' <= c <= 'z' || c == '.' || c == '_' || c == '-' }

  predicate SetsSomething(o: Override) {
    o.availability.Some? || o.recording.Some? || o.privacy.Some? || o.suppressed.Some?
  }

  predicate ValidProfile(p: Profile) {
    && ValidProfileId(p.id) && ValidLabel(p.name, 80)
    && 0 < p.revision <= MAX_REVISION && |p.cameras| <= MAX_PROFILE_TARGETS
    && forall k :: k in p.cameras ==> ValidLabel(k, 256) && SetsSomething(p.cameras[k])
  }

  predicate ValidRegistry(r: Registry) {
    && r.revision <= MAX_REVISION && |r.profiles| <= MAX_PROFILES
    && (r.active.Some? ==> ValidProfileId(r.active.value) && r.active.value in r.profiles)
    && forall k :: k in r.profiles ==> ValidProfile(r.profiles[k]) && r.profiles[k].id == k
  }

  // ---- The rules, spelled out ---------------------------------------------------------

  // The White_Space characters and the control characters of Unicode.
  ghost predicate White(c: char) {
    c as int in {0x9, 0xA, 0xB, 0xC, 0xD, 0x20, 0x85, 0xA0, 0x1680, 0x2000, 0x2001, 0x2002, 0x2003, 0x2004, 0x2005,
                 0x2006, 0x2007, 0x2008, 0x2009, 0x200A, 0x2028, 0x2029, 0x202F, 0x205F, 0x3000}
  }

  ghost predicate Control(c: char) { c as int <= 0x1F || 0x7F <= c as int <= 0x9F }

  ghost predicate Label(s: string, maxBytes: nat) {
    && (exists c :: c in s && !White(c)) && (forall c :: c in s ==> !Control(c)) && |Bytes(s)| <= maxBytes
  }

  ghost predicate PlainId(id: string) {
    && id != "" && id != "." && id != ".." && |id| <= 128
    && forall c :: c in id ==> 'A' <= c <= 'Z' || 'a' <= c <= 'z' || '0' <= c <= '9' || c in {'.', '_', '-'}
  }

  ghost predicate SoundProfile(p: Profile) {
    && PlainId(p.id) && Label(p.name, 80) && 1 <= p.revision < 0x8000_0000_0000_0000 && |p.cameras| <= 127
    && forall k :: k in p.cameras ==> Label(k, 256) && p.cameras[k] != Override(None, None, None, None)
  }

  /** Which registries are accepted. */
  lemma {:induction false} RegistryRules(r: Registry)
    ensures ValidRegistry(r) <==>
            && r.revision < 0x8000_0000_0000_0000 && |r.profiles| <= 32
            && (r.active.Some? ==> r.active.value in r.profiles)
            && forall k :: k in r.profiles ==> r.profiles[k].id == k && SoundProfile(r.profiles[k])
  {
    hide ValidProfile, SoundProfile, PlainId, ValidProfileId;
    forall k | k in r.profiles ensures ValidProfile(r.profiles[k]) <==> SoundProfile(r.profiles[k]) {
      ProfileRules(r.profiles[k]);
    }
    if r.active.Some? && r.active.value in r.profiles {
      IdOfProfile(r.profiles[r.active.value]);
    }
  }

  lemma IdOfProfile(p: Profile)
    ensures ValidProfile(p) ==> ValidProfileId(p.id)
  {
  }

  lemma ProfileRules(p: Profile)
    ensures ValidProfile(p) <==> SoundProfile(p)
  {
    hide ValidLabel, Label, PlainId, ValidProfileId;
    IdRules(p.id);
    LabelRules(p.name, 80);
    forall k | k in p.cameras ensures ValidLabel(k, 256) <==> Label(k, 256) { LabelRules(k, 256); }
  }

  lemma LabelRules(s: string, maxBytes: nat)
    ensures ValidLabel(s, maxBytes) <==> Label(s, maxBytes)
  {
    hide Bytes;
    forall c: char ensures (IsSpace(c) <==> White(c)) && (IsControl(c) <==> Control(c)) { SpaceIs(c); }
    hide IsSpace, White, IsControl, Control;
    forall i | 0 <= i < |s| ensures s[i] in s { }
    forall c | c in s ensures exists i :: 0 <= i < |s| && s[i] == c { }
  }

  lemma SpaceIs(c: char)
    ensures (IsSpace(c) <==> White(c)) && (IsControl(c) <==> Control(c))
  {
  }

  lemma IdRules(id: string)
    ensures ValidProfileId(id) <==> PlainId(id)
  {
    forall i | 0 <= i < |id| ensures id[i] in id { }
  }

  // The targets of the active profile, if there is one.
  function ActiveTargets(r: Registry): (m: map<string, Override>) {
    if r.active.Some? && r.active.value in r.profiles then r.profiles[r.active.value].cameras else map[]
  }

  // ---- Policy -------------------------------------------------------------------------

  datatype BasePolicy = BasePolicy(available: bool, recording: RecordingMode, privacy: bool, notifications: bool)

  datatype Source = FromBase | FromProfile

  datatype Policy = Policy(
    available: bool, recording: RecordingMode, privacy: bool, notifications: bool,
    availableSource: Source, recordingSource: Source, privacySource: Source, notificationsSource: Source)

  function ResolvePolicy(base: BasePolicy, profile: Option<Override>): (r: Policy) {
    var o := if profile.Some? then profile.value else Override(None, None, None, None);
    var available := base.available && (o.availability.Some? ==> o.availability.value);
    var availableSource :=
      if !base.available || o.availability == Some(false) then (if base.available then FromProfile else FromBase)
      else if o.availability.Some? then FromProfile else FromBase;
    var (privacy, privacySource) :=
      if base.privacy then (true, FromBase)
      else if o.privacy.Some? then (o.privacy.value, FromProfile)
      else (false, FromBase);
    var (recording, recordingSource) :=
      if base.recording == Off then (Off, FromBase)
      else if privacy then (Off, privacySource)
      else if !available then (Off, availableSource)
      else if o.recording.Some? then (o.recording.value, FromProfile)
      else (base.recording, FromBase);
    var (notifications, notificationsSource) :=
      if !base.notifications then (false, FromBase)
      else if o.suppressed.Some? then (!o.suppressed.value, FromProfile)
      else (true, FromBase);
    Policy(available, recording, privacy, notifications,
           availableSource, recordingSource, privacySource, notificationsSource)
  }

  /** Restrictions add up: neither the base nor the profile can lift the other's, and each
      holds only if one of them asks for it. A camera that records does so in the profile's
      mode, or else in its own. */
  lemma PolicyRestricts(base: BasePolicy, profile: Option<Override>)
    ensures var r := ResolvePolicy(base, profile);
            && (r.available <==> base.available && !(profile.Some? && profile.value.availability == Some(false)))
            && (r.privacy <==> base.privacy || (profile.Some? && profile.value.privacy == Some(true)))
            && (r.notifications <==> base.notifications && !(profile.Some? && profile.value.suppressed == Some(true)))
            && (r.recording != Off <==> r.available && !r.privacy && base.recording != Off &&
                                        !(profile.Some? && profile.value.recording == Some(Off)))
            && (r.recording != Off ==>
                  r.recording == if profile.Some? && profile.value.recording.Some? then profile.value.recording.value
                                 else base.recording)
  {
  }

  /** Each source tells the truth: a field said to come from the base is what the base alone
      would give, and one is said to come from the profile exactly where the profile sets it
      and the base leaves it open. */
  lemma PolicySources(base: BasePolicy, profile: Option<Override>)
    ensures var r, alone := ResolvePolicy(base, profile), ResolvePolicy(base, None);
            && (r.availableSource == FromBase ==> r.available == alone.available)
            && (r.privacySource == FromBase ==> r.privacy == alone.privacy)
            && (r.recordingSource == FromBase ==> r.recording == alone.recording)
            && (r.notificationsSource == FromBase ==> r.notifications == alone.notifications)
            && (r.availableSource == FromProfile <==>
                base.available && profile.Some? && profile.value.availability.Some?)
            && (r.privacySource == FromProfile <==> !base.privacy && profile.Some? && profile.value.privacy.Some?)
            && (r.notificationsSource == FromProfile <==>
                base.notifications && profile.Some? && profile.value.suppressed.Some?)
            && (r.recordingSource == FromProfile <==>
                base.recording != Off &&
                (if r.privacy then r.privacySource == FromProfile
                 else if !r.available then r.availableSource == FromProfile
                 else profile.Some? && profile.value.recording.Some?))
  {
  }
}
