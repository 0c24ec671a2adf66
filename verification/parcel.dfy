/**
 * Parcelable flattening of the model records.  A parcel is the sequence of
 * values written into it; a read returns the value at the read position and
 * the next position, or None when the parcel holds something else there or
 * a non-null value is required (`Objects.requireNonNull`) and null was read.
 */
module Parcels {
  import opened Wrappers
  import opened JavaText
  import opened Models

  datatype PValue = PInt(i: int) | PString(s: Option<String>) | PByte(b: int) | PUri(u: Option<Uri>)

  type Parcel = seq<PValue>

  // ---------------------------------------------------------------- primitive reads

  function ReadInt(p: Parcel, pos: nat): (r: Option<(int, nat)>)
    ensures r.Some? <==> pos < |p| && p[pos].PInt?
    ensures r.Some? ==> r.value == (p[pos].i, pos + 1)
  {
    if pos < |p| && p[pos].PInt? then Some((p[pos].i, pos + 1)) else None
  }

  /** readString, which may yield null. */
  function ReadString(p: Parcel, pos: nat): (r: Option<(Option<String>, nat)>)
    ensures r.Some? <==> pos < |p| && p[pos].PString?
    ensures r.Some? ==> r.value == (p[pos].s, pos + 1)
  {
    if pos < |p| && p[pos].PString? then Some((p[pos].s, pos + 1)) else None
  }

  /** `Objects.requireNonNull(readString())`: a null string fails the read. */
  function ReadNonNullString(p: Parcel, pos: nat): (r: Option<(String, nat)>)
    ensures r.Some? <==> pos < |p| && p[pos].PString? && p[pos].s.Some?
    ensures r.Some? ==> r.value == (p[pos].s.value, pos + 1)
  {
    if pos < |p| && p[pos].PString? && p[pos].s.Some? then Some((p[pos].s.value, pos + 1)) else None
  }

  function ReadByte(p: Parcel, pos: nat): (r: Option<(int, nat)>)
    ensures r.Some? <==> pos < |p| && p[pos].PByte?
    ensures r.Some? ==> r.value == (p[pos].b, pos + 1)
  {
    if pos < |p| && p[pos].PByte? then Some((p[pos].b, pos + 1)) else None
  }

  /** A presence byte then, when it is 1, a string (the nullable-field idiom). */
  function ReadOptionalString(p: Parcel, pos: nat): (r: Option<(Option<String>, nat)>)
    ensures r.Some? ==> pos < |p| && p[pos].PByte?
    ensures r.Some? ==> r.value.1 == if p[pos].b == 1 then pos + 2 else pos + 1
    ensures r.Some? && r.value.0.Some? ==> p[pos] == PByte(1)
  {
    match ReadByte(p, pos)
    case None => None
    case Some((flag, next)) =>
      if flag == 1 then
        match ReadString(p, next)
        case None => None
        case Some((s, after)) => Some((s, after))
      else Some((None, next))
  }

  function WriteOptionalString(s: Option<String>): Parcel
  {
    if s.Some? then [PByte(1), PString(s)] else [PByte(0)]
  }

  lemma OptionalStringRoundTrip(s: Option<String>, before: Parcel, rest: Parcel)
    ensures ReadOptionalString(before + WriteOptionalString(s) + rest, |before|)
            == Some((s, |before| + |WriteOptionalString(s)|))
  {
    var p := before + WriteOptionalString(s) + rest;
    assert p[|before|] == WriteOptionalString(s)[0];
    if s.Some? {
      assert p[|before| + 1] == PString(s);
    }
  }

  // ---------------------------------------------------------------- App

  function WriteApp(a: App): (r: Parcel)
  {
    [PString(Some(a.packageName)), PString(Some(a.appLabel)), PInt(a.iconResId), PInt(a.popularity), PInt(a.interactions)]
  }

  /** App.CREATOR: the three-argument constructor (which recomputes the id), then popularity and interactions. */
  function ReadApp(p: Parcel, pos: nat): (r: Option<(App, nat)>)
    ensures r.Some? ==> r.value.1 == pos + 5 && r.value.0.id == StringHash(r.value.0.packageName)
  {
    match ReadNonNullString(p, pos)
    case None => None
    case Some((pkg, p1)) =>
      match ReadNonNullString(p, p1)
      case None => None
      case Some((lbl, p2)) =>
        match ReadInt(p, p2)
        case None => None
        case Some((icon, p3)) =>
          match ReadInt(p, p3)
          case None => None
          case Some((popularity, p4)) =>
            match ReadInt(p, p4)
            case None => None
            case Some((interactions, p5)) =>
              Some((NewApp(pkg, lbl, icon).(popularity := popularity, interactions := interactions), p5))
  }

  /**
   * An app survives the parcel with every field but its id; the id is the
   * package's hash afterwards, so the round trip is exact exactly for apps
   * whose id was derived that way.
   */
  lemma AppRoundTrip(a: App, rest: Parcel)
    ensures ReadApp(WriteApp(a) + rest, 0) == Some((a.(id := StringHash(a.packageName)), 5))
    ensures ReadApp(WriteApp(a) + rest, 0) == Some((a, 5)) <==> a.id == StringHash(a.packageName)
  {
    var p := WriteApp(a) + rest;
    assert p[0] == PString(Some(a.packageName)) && p[1] == PString(Some(a.appLabel));
    assert p[2] == PInt(a.iconResId) && p[3] == PInt(a.popularity) && p[4] == PInt(a.interactions);
  }

  // ---------------------------------------------------------------- Contact

  function WriteContact(c: Contact): Parcel
  {
    [PInt(c.id), PString(Some(c.fullName)), PInt(c.interactions)]
      + WriteOptionalString(c.phoneNumber) + WriteOptionalString(c.firstName)
  }

  /** Contact.CREATOR. */
  function ReadContact(p: Parcel, pos: nat): (r: Option<(Contact, nat)>)
    ensures r.Some? ==> pos + 5 <= r.value.1 <= pos + 7
  {
    match ReadInt(p, pos)
    case None => None
    case Some((id, p1)) =>
      match ReadNonNullString(p, p1)
      case None => None
      case Some((name, p2)) =>
        match ReadInt(p, p2)
        case None => None
        case Some((interactions, p3)) =>
          match ReadOptionalString(p, p3)
          case None => None
          case Some((phone, p4)) =>
            match ReadOptionalString(p, p4)
            case None => None
            case Some((first, p5)) =>
              Some((NewContact(id, name).(interactions := interactions, phoneNumber := phone, firstName := first), p5))
  }

  /** A contact, nullable fields included, is read back exactly and the read stops where the write ended. */
  lemma ContactRoundTrip(c: Contact, rest: Parcel)
    ensures ReadContact(WriteContact(c) + rest, 0) == Some((c, |WriteContact(c)|))
  {
    var head: Parcel := [PInt(c.id), PString(Some(c.fullName)), PInt(c.interactions)];
    var p := WriteContact(c) + rest;
    assert p[0] == PInt(c.id) && p[1] == PString(Some(c.fullName)) && p[2] == PInt(c.interactions);
    assert p == head + WriteOptionalString(c.phoneNumber) + (WriteOptionalString(c.firstName) + rest);
    OptionalStringRoundTrip(c.phoneNumber, head, WriteOptionalString(c.firstName) + rest);
    assert p == (head + WriteOptionalString(c.phoneNumber)) + WriteOptionalString(c.firstName) + rest;
    OptionalStringRoundTrip(c.firstName, head + WriteOptionalString(c.phoneNumber), rest);
  }

  // ---------------------------------------------------------------- Media

  function WriteMedia(m: Media): Parcel
  {
    [PUri(Some(m.uri))] + WriteOptionalString(m.title) + [PInt(m.mediaType)]
  }

  /** Media.CREATOR: a null URI fails the read. */
  function ReadMedia(p: Parcel, pos: nat): (r: Option<(Media, nat)>)
    ensures r.Some? ==> pos + 3 <= r.value.1 <= pos + 4
    ensures pos < |p| && p[pos] == PUri(None) ==> r.None?
  {
    if !(pos < |p| && p[pos].PUri? && p[pos].u.Some?) then None
    else
      match ReadOptionalString(p, pos + 1)
      case None => None
      case Some((title, p2)) =>
        match ReadInt(p, p2)
        case None => None
        case Some((mediaType, p3)) => Some((Media(p[pos].u.value, title, mediaType), p3))
  }

  lemma MediaRoundTrip(m: Media, rest: Parcel)
    ensures ReadMedia(WriteMedia(m) + rest, 0) == Some((m, |WriteMedia(m)|))
  {
    var p := WriteMedia(m) + rest;
    assert p[0] == PUri(Some(m.uri));
    assert p == [PUri(Some(m.uri))] + WriteOptionalString(m.title) + ([PInt(m.mediaType)] + rest);
    OptionalStringRoundTrip(m.title, [PUri(Some(m.uri))], [PInt(m.mediaType)] + rest);
    assert p[|WriteMedia(m)| - 1] == PInt(m.mediaType);
  }

  // ---------------------------------------------------------------- Shortcut and AutoComplete

  function WriteShortcut(s: Shortcut): Parcel
  {
    [PString(Some(s.intentAction)), PInt(s.labelResId), PInt(s.iconResId)]
  }

  function ReadShortcut(p: Parcel, pos: nat): (r: Option<(Shortcut, nat)>)
    ensures r.Some? ==> r.value.1 == pos + 3
  {
    match ReadNonNullString(p, pos)
    case None => None
    case Some((action, p1)) =>
      match ReadInt(p, p1)
      case None => None
      case Some((lbl, p2)) =>
        match ReadInt(p, p2)
        case None => None
        case Some((icon, p3)) => Some((Shortcut(action, lbl, icon), p3))
  }

  lemma ShortcutRoundTrip(s: Shortcut, rest: Parcel)
    ensures ReadShortcut(WriteShortcut(s) + rest, 0) == Some((s, 3))
  {
    var p := WriteShortcut(s) + rest;
    assert p[0] == PString(Some(s.intentAction)) && p[1] == PInt(s.labelResId) && p[2] == PInt(s.iconResId);
  }

  function WriteAutoComplete(a: AutoComplete): Parcel
  {
    [PString(Some(a.name))]
  }

  function ReadAutoComplete(p: Parcel, pos: nat): (r: Option<(AutoComplete, nat)>)
    ensures r.Some? ==> r.value.1 == pos + 1
    ensures pos < |p| && p[pos] == PString(None) ==> r.None?
  {
    match ReadNonNullString(p, pos)
    case None => None
    case Some((name, p1)) => Some((AutoComplete(name), p1))
  }

  lemma AutoCompleteRoundTrip(a: AutoComplete, rest: Parcel)
    ensures ReadAutoComplete(WriteAutoComplete(a) + rest, 0) == Some((a, 1))
  {
    assert (WriteAutoComplete(a) + rest)[0] == PString(Some(a.name));
  }
}
