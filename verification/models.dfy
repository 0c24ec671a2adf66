/**
 * The records the providers show: apps and contacts (both database items,
 * identified by class and id), media files, settings shortcuts and
 * autocomplete suggestions, with their derived getters.
 */
module Models {
  import opened Wrappers
  import opened JavaText

  // ---------------------------------------------------------------- database items

  /** An installed app.  `id` is the database key; convenience constructors derive it from the package. */
  datatype App = App(id: int, packageName: String, appLabel: String, iconResId: int, popularity: int, interactions: int)

  /** `new App(packageName, appLabel, iconResId)`: id = packageName.hashCode(), popularity -1, no interactions. */
  function NewApp(packageName: String, appLabel: String, iconResId: int): (a: App)
    ensures a.id == StringHash(packageName) && a.packageName == packageName && a.appLabel == appLabel
    ensures a.iconResId == iconResId && a.popularity == -1 && a.interactions == 0
  {
    App(StringHash(packageName), packageName, appLabel, iconResId, -1, 0)
  }

  /** `new App(packageName, appLabel)`: no icon resource. */
  function NewAppNoIcon(packageName: String, appLabel: String): (a: App)
    ensures a == NewApp(packageName, appLabel, 0) && a.iconResId == 0
  {
    NewApp(packageName, appLabel, 0)
  }

  /** A contact; phone and first name are nullable. */
  datatype Contact = Contact(id: int, fullName: String, interactions: int, phoneNumber: Option<String>, firstName: Option<String>)

  function NewContact(id: int, fullName: String): (c: Contact)
    ensures c.id == id && c.fullName == fullName && c.interactions == 0
    ensures c.phoneNumber.None? && c.firstName.None?
  {
    Contact(id, fullName, 0, None, None)
  }

  /** `getNames`: the full name split on single spaces (String.split semantics). */
  function Names(c: Contact): (r: seq<String>)
    ensures forall k :: 0 <= k < |r| ==> ' ' !in r[k]
    ensures ' ' !in c.fullName ==> r == [c.fullName]
  {
    SplitSpace(c.fullName)
  }

  /** `getInitials`: "" for an empty name, otherwise the first character trimmed and upper-cased. */
  function Initials(c: Contact): (r: String)
    ensures |c.fullName| == 0 ==> r == ""
    ensures |c.fullName| > 0 && c.fullName[0] <= ' ' ==> r == ""
    ensures |c.fullName| > 0 && c.fullName[0] > ' ' ==> r == [Upper(c.fullName[0])]
  {
    var first := if |c.fullName| > 0 then c.fullName[..1] else "";
    assert |first| > 0 && first[0] > ' ' ==> Trim(first) == first;
    ToUpper(Trim(first))
  }

  /** Non-null and not blank. */
  predicate HasText(s: Option<String>)
  {
    s.Some? && |Trim(s.value)| > 0
  }

  predicate HasPhoneNumber(c: Contact) { HasText(c.phoneNumber) }

  predicate HasFirstName(c: Contact) { HasText(c.firstName) }

  /** A blank phone or first name counts as absent: the check is exactly "holds a character above the space". */
  lemma HasTextIffNonBlank(s: Option<String>)
    ensures HasText(s) <==> s.Some? && exists i :: 0 <= i < |s.value| && s.value[i] > ' '
  {
    if s.Some? {
      TrimEmptyIffBlank(s.value);
    }
  }

  /** DatabaseItem's runtime classes. */
  datatype Item = AppItem(app: App) | ContactItem(contact: Contact)

  function ItemId(x: Item): int
  {
    match x
    case AppItem(a) => a.id
    case ContactItem(c) => c.id
  }

  /** DatabaseItem.equals: the same runtime class and the same id, whatever the other fields. */
  predicate ItemEquals(x: Item, y: Item)
  {
    x.AppItem? == y.AppItem? && ItemId(x) == ItemId(y)
  }

  /** DatabaseItem.hashCode: the id. */
  function ItemHash(x: Item): (h: int)
  {
    ItemId(x)
  }

  /** equals is an equivalence and hashCode agrees with it. */
  lemma ItemEqualsIsEquivalence(x: Item, y: Item, z: Item)
    ensures ItemEquals(x, x)
    ensures ItemEquals(x, y) ==> ItemEquals(y, x) && ItemHash(x) == ItemHash(y)
    ensures ItemEquals(x, y) && ItemEquals(y, z) ==> ItemEquals(x, z)
  {
  }

  /** An app is never equal to a contact, even with the same id. */
  lemma AppNeverEqualsContact(a: App, c: Contact)
    ensures !ItemEquals(AppItem(a), ContactItem(c))
  {
  }

  /** Apps made from the same package are equal, whatever their labels and icons. */
  lemma SamePackageSameApp(p: String, label1: String, i1: int, label2: String, i2: int)
    ensures ItemEquals(AppItem(NewApp(p, label1, i1)), AppItem(NewApp(p, label2, i2)))
  {
  }

  // ---------------------------------------------------------------- media

  const TYPE_FOLDER: int := 0
  const TYPE_PICTURE: int := 1
  const TYPE_VIDEO: int := 2
  const TYPE_AUDIO: int := 3
  const TYPE_PLAYLIST: int := 4
  const TYPE_PDF: int := 5
  const TYPE_OTHER: int := -1

  /** The seven type constants are pairwise distinct. */
  lemma MediaTypesDistinct()
    ensures |{TYPE_FOLDER, TYPE_PICTURE, TYPE_VIDEO, TYPE_AUDIO, TYPE_PLAYLIST, TYPE_PDF, TYPE_OTHER}| == 7
  {
  }

  /**
   * An android.net.Uri as far as `getName` looks at it: its scheme, its
   * last path segment (absent when the path has none) and its string form.
   */
  datatype Uri = Uri(scheme: String, lastPathSegment: Option<String>, text: String)

  datatype Media = Media(uri: Uri, title: Option<String>, mediaType: int)

  /** `getName`: the title; else a file URI's last path segment; else the whole URI. */
  function MediaName(m: Media): (r: String)
    ensures m.title.Some? ==> r == m.title.value
    ensures m.title.None? && m.uri.scheme == "file" && m.uri.lastPathSegment.Some? ==> r == m.uri.lastPathSegment.value
    ensures m.title.None? && (m.uri.scheme != "file" || m.uri.lastPathSegment.None?) ==> r == m.uri.text
  {
    if m.title.Some? then m.title.value
    else if m.uri.scheme == "file" && m.uri.lastPathSegment.Some? then m.uri.lastPathSegment.value
    else m.uri.text
  }

  /** The colour and icon families: `getColor` and `getIcon` switch on the type identically. */
  datatype MediaStyle = FolderStyle | PictureStyle | VideoStyle | AudioStyle | PlaylistStyle | PdfStyle | OtherStyle

  function StyleOf(mediaType: int): (r: MediaStyle)
  {
    if mediaType == TYPE_FOLDER then FolderStyle
    else if mediaType == TYPE_PICTURE then PictureStyle
    else if mediaType == TYPE_VIDEO then VideoStyle
    else if mediaType == TYPE_AUDIO then AudioStyle
    else if mediaType == TYPE_PLAYLIST then PlaylistStyle
    else if mediaType == TYPE_PDF then PdfStyle
    else OtherStyle
  }

  /** Each of the six known types has its own resource; every other value falls back to "other". */
  lemma StyleOfDistinguishesKnownTypes(t1: int, t2: int)
    ensures StyleOf(t1) == OtherStyle <==> !(0 <= t1 <= 5)
    ensures 0 <= t1 <= 5 && StyleOf(t1) == StyleOf(t2) ==> t1 == t2
  {
  }

  // ---------------------------------------------------------------- shortcuts and suggestions

  /** The settings icon of the two-argument constructor (a resource id; its value is not modelled). */
  const DEFAULT_SHORTCUT_ICON: int := 0

  datatype Shortcut = Shortcut(intentAction: String, labelResId: int, iconResId: int)

  function NewShortcut(intentAction: String, labelResId: int): (s: Shortcut)
    ensures s.intentAction == intentAction && s.labelResId == labelResId && s.iconResId == DEFAULT_SHORTCUT_ICON
  {
    Shortcut(intentAction, labelResId, DEFAULT_SHORTCUT_ICON)
  }

  /** Shortcut.equals: the same intent action. */
  predicate ShortcutEquals(a: Shortcut, b: Shortcut)
  {
    a.intentAction == b.intentAction
  }

  /** Shortcut.hashCode: 31 + the action's hash, in int arithmetic. */
  function ShortcutHash(s: Shortcut): (h: int)
    ensures IsInt32(h)
  {
    Wrap32(31 + StringHash(s.intentAction))
  }

  /** Equal shortcuts hash equally, whatever their labels and icons. */
  lemma ShortcutHashConsistent(a: Shortcut, b: Shortcut)
    requires ShortcutEquals(a, b)
    ensures ShortcutHash(a) == ShortcutHash(b)
    ensures ShortcutEquals(b, a)
  {
  }

  datatype AutoComplete = AutoComplete(name: String)

  /**
   * One entry of the "results" JSON array: either `getString(i)` yields a
   * string or it throws a JSONException.
   */
  datatype JsonEntry = Extractable(value: String) | NotExtractable

  function ExtractableCount(entries: seq<JsonEntry>): nat
  {
    if |entries| == 0 then 0 else (if entries[0].Extractable? then 1 else 0) + ExtractableCount(entries[1..])
  }

  /**
   * `parseResults(JSONObject)`: no "results" array gives []; entries whose
   * extraction throws are skipped and the rest keep their order.
   */
  function ParseJson(results: Option<seq<JsonEntry>>): (r: seq<AutoComplete>)
    ensures results.None? ==> r == []
    ensures results.Some? ==> |r| == ExtractableCount(results.value)
    decreases if results.Some? then |results.value| else 0
  {
    if results.None? || |results.value| == 0 then []
    else
      var head := results.value[0];
      var rest := ParseJson(Some(results.value[1..]));
      if head.Extractable? then [AutoComplete(head.value)] + rest else rest
  }

  /** Every parsed suggestion comes from an extractable entry, and every extractable entry is parsed, in order. */
  lemma {:induction false} ParseJsonKeepsExtractable(entries: seq<JsonEntry>, k: nat)
    requires k < |entries| && entries[k].Extractable?
    ensures var r := ParseJson(Some(entries));
            var i := ExtractableCount(entries[..k]);
            i < |r| && r[i] == AutoComplete(entries[k].value)
  {
    if k == 0 {
    } else {
      ParseJsonKeepsExtractable(entries[1..], k - 1);
      assert entries[..k] == [entries[0]] + entries[1..][..k - 1];
    }
  }

  /** `parseResults(BranchQueryResult)`: one suggestion per query result, in the same order. */
  function ParseSdk(queryResults: seq<String>): (r: seq<AutoComplete>)
    ensures |r| == |queryResults|
    ensures forall i :: 0 <= i < |r| ==> r[i].name == queryResults[i]
  {
    seq(|queryResults|, i requires 0 <= i < |queryResults| => AutoComplete(queryResults[i]))
  }
}
