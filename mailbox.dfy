/**
 * The storage containers the plugin spawns as mailboxes (capture one note)
 * and archive views (browse every mail), and the items in their slots.
 */
module Mailbox {
  import opened Wrappers
  import opened Text
  import opened Players
  import opened Archive

  const NoteShortname: string := "note"

  /** An item: its definition's short name, its (nullable) text and its display name. */
  datatype Item = Item(shortname: string, text: Option<string>, name: string)

  /** A spawned storage container: its slot count, its occupied slots and
      whether it has been killed. */
  class Container {
    var capacity: nat
    var items: map<nat, Item>
    var killed: bool

    constructor (slots: nat)
      ensures capacity == slots && items == map[] && !killed
    {
      capacity := slots;
      items := map[];
      killed := false;
    }
  }

  /** `GetSlot(i)`: the item in slot `i`, or null. */
  function GetSlot(items: map<nat, Item>, i: nat): Option<Item> {
    if i in items then Some(items[i]) else None
  }

  predicate IsNoteAt(items: map<nat, Item>, i: nat) {
    i in items && items[i].shortname == NoteShortname
  }

  /** The first of slots `from` .. `capacity` - 1 that holds a note. */
  function FirstNoteFrom(items: map<nat, Item>, capacity: nat, from: nat): (r: Option<nat>)
    requires from <= capacity
    ensures r.Some? ==> from <= r.value < capacity && IsNoteAt(items, r.value)
    ensures forall j :: from <= j < (if r.Some? then r.value else capacity) ==> !IsNoteAt(items, j)
    decreases capacity - from
  {
    if from == capacity then None
    else if IsNoteAt(items, from) then Some(from)
    else FirstNoteFrom(items, capacity, from + 1)
  }

  /** The first slot of a container that holds a note, if any. */
  function FirstNoteSlot(items: map<nat, Item>, capacity: nat): (r: Option<nat>)
    ensures r.Some? ==> r.value < capacity && IsNoteAt(items, r.value)
    ensures forall j :: 0 <= j < (if r.Some? then r.value else capacity) ==> !IsNoteAt(items, j)
  {
    FirstNoteFrom(items, capacity, 0)
  }

  /** What the close handler finds in a capture mailbox. */
  datatype NoteScan = NoNote | BlankNote | Note(content: string)

  /**
   * The first note in the slots decides: none, a note whose text is null or
   * white space only, or a note whose trimmed text is the mail's content,
   * which is then non-empty with white space at neither end.
   */
  function ScanForNote(items: map<nat, Item>, capacity: nat): (r: NoteScan)
    ensures r.NoNote? <==> forall j :: 0 <= j < capacity ==> !IsNoteAt(items, j)
    ensures r.BlankNote? <==> exists i :: FirstNoteSlot(items, capacity) == Some(i) && IsNullOrWhiteSpace(items[i].text)
    ensures r.Note? ==> ValidContent(r.content)
    ensures r.Note? ==> exists i :: FirstNoteSlot(items, capacity) == Some(i) && items[i].text.Some?
                                    && r.content == Trim(items[i].text.value)
  {
    match FirstNoteSlot(items, capacity)
    case None => NoNote
    case Some(i) =>
      var text := items[i].text;
      if IsNullOrWhiteSpace(text) then BlankNote else Note(Trim(text.value))
  }

  /** A one-slot mailbox: only slot 0 decides what the scan finds. */
  lemma ScanOneSlot(items: map<nat, Item>)
    ensures !IsNoteAt(items, 0) ==> ScanForNote(items, 1) == NoNote
    ensures IsNoteAt(items, 0) && IsNullOrWhiteSpace(items[0].text) ==> ScanForNote(items, 1) == BlankNote
    ensures IsNoteAt(items, 0) && !IsNullOrWhiteSpace(items[0].text) ==>
              ScanForNote(items, 1) == Note(Trim(items[0].text.value))
  {
  }

  /** The first empty slot, where `MoveToContainer` puts an item. */
  function FirstFreeFrom(items: map<nat, Item>, capacity: nat, from: nat): (r: Option<nat>)
    requires from <= capacity
    ensures r.Some? ==> from <= r.value < capacity && r.value !in items
    ensures forall j :: from <= j < (if r.Some? then r.value else capacity) ==> j in items
    decreases capacity - from
  {
    if from == capacity then None
    else if from !in items then Some(from)
    else FirstFreeFrom(items, capacity, from + 1)
  }

  function FirstFreeSlot(items: map<nat, Item>, capacity: nat): (r: Option<nat>)
    ensures r.Some? ==> r.value < capacity && r.value !in items
    ensures forall j :: 0 <= j < (if r.Some? then r.value else capacity) ==> j in items
  {
    FirstFreeFrom(items, capacity, 0)
  }

  /** The note that shows one archived mail: its content, then its sender's
      name and id and its date as `formatDate` renders it. */
  function ArchiveNote(mail: MailData, formatDate: int -> string): (note: Item)
    ensures note.shortname == NoteShortname
    ensures note.text.Some? && |mail.content| <= |note.text.value|
    ensures note.text.value[..|mail.content|] == mail.content
  {
    var text := mail.content + "\n\n-- From " + mail.senderName + " (" + Decimal(mail.senderId as nat)
                + ") on " + formatDate(mail.timestamp) + " --";
    Item(NoteShortname, Some(text), "From: " + mail.senderName)
  }

  /** A container of `capacity` slots stocked with the archive: slot `j`
      shows mail `j` for as many mails as there are slots. */
  function ArchiveView(mails: seq<MailData>, capacity: nat, formatDate: int -> string): map<nat, Item> {
    map j: nat | j < |mails| && j < capacity :: ArchiveNote(mails[j], formatDate)
  }

  /** In a partly stocked view the first free slot is the next one, or there
      is none once every slot is taken. */
  lemma ArchiveViewFreeSlot(mails: seq<MailData>, capacity: nat, formatDate: int -> string)
    ensures FirstFreeSlot(ArchiveView(mails, capacity, formatDate), capacity)
            == if |mails| < capacity then Some(|mails|) else None
  {
    var view := ArchiveView(mails, capacity, formatDate);
    var r := FirstFreeSlot(view, capacity);
    if |mails| < capacity {
      assert |mails| !in view;
      if r.Some? {
        assert r.value !in view;
      }
    }
  }

  /** Stocking one more mail puts it in the next free slot, if there is one. */
  lemma ArchiveViewExtend(mails: seq<MailData>, mail: MailData, capacity: nat, formatDate: int -> string)
    ensures ArchiveView(mails + [mail], capacity, formatDate)
            == if |mails| < capacity
               then ArchiveView(mails, capacity, formatDate)[|mails| := ArchiveNote(mail, formatDate)]
               else ArchiveView(mails, capacity, formatDate)
  {
    var longer := mails + [mail];
    assert forall j :: 0 <= j < |mails| ==> longer[j] == mails[j];
  }

  /** Stocking mail `i` of `mails` into the view of the mails before it puts
      it in the next slot when there is one, and otherwise discards it. */
  lemma ArchiveViewStep(mails: seq<MailData>, i: nat, capacity: nat, formatDate: int -> string)
    requires i < |mails|
    ensures var view := ArchiveView(mails[..i], capacity, formatDate);
            var slot := FirstFreeSlot(view, capacity);
            ArchiveView(mails[..i + 1], capacity, formatDate)
            == if slot.Some? then view[slot.value := ArchiveNote(mails[i], formatDate)] else view
  {
    ArchiveViewFreeSlot(mails[..i], capacity, formatDate);
    ArchiveViewExtend(mails[..i], mails[i], capacity, formatDate);
    assert mails[..i + 1] == mails[..i] + [mails[i]];
  }
}
