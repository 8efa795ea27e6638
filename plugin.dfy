/**
 * The Mod Mail plugin's state and its hooks and commands: the archive, the
 * cooldown table, the table of spawned containers and the close handler
 * that turns a note left in a mailbox into an archived mail.
 *
 * The host's permission store is the `hasPermission` parameter; whether the
 * game manages to create a container entity, the slot count of the storage
 * prefab, the clock and the local date format are parameters too.
 */
module Plugin {
  import opened Wrappers
  import opened Text
  import opened DataFileUtil
  import opened Settings
  import opened Players
  import opened Archive
  import opened Cooldown
  import opened Mailbox

  const UsePermission: string := "modmail.use"
  const AdminPermission: string := "modmail.admin"

  /** Whether the player with the given id holds the named permission. */
  type Permissions = (ulong, string) -> bool

  /** The message keys a player can be sent. */
  datatype Lang =
    | NoPermission
    | MailboxCreateFail
    | MailboxOpenPrompt
    | MailArchiveCreateFail
    | MailArchiveOpenPrompt
    | MailSent
    | EmptyNote
    | NewMailAlert
    | MailCooldown

  /** How a container's close ended. */
  datatype LootEnd =
    | NotTracked      // not a container this plugin spawned
    | PlayerGone      // a mailbox closed with no player attached
    | Browsed         // an archive view closed
    | NoNoteFound     // a mailbox closed with no note in it
    | BlankNoteFound  // the player was sent EmptyNote
    | Archived(mail: MailData, webhookPosted: bool, alerted: seq<Player>)  // the player was sent MailSent

  /** The online players alerted of new mail: the admins among the active
      players, in order. */
  function AdminRecipients(activePlayers: seq<Option<Player>>, hasPermission: Permissions): seq<Player>
    decreases |activePlayers|
  {
    if activePlayers == [] then []
    else
      var last := activePlayers[|activePlayers| - 1];
      AdminRecipients(activePlayers[..|activePlayers| - 1], hasPermission)
      + if last.Some? && hasPermission(last.value.userId, AdminPermission) then [last.value] else []
  }

  /** Exactly the online admins are alerted. */
  lemma {:induction false} AdminRecipientsAreOnlineAdmins(activePlayers: seq<Option<Player>>, hasPermission: Permissions, p: Player)
    ensures p in AdminRecipients(activePlayers, hasPermission)
            <==> Some(p) in activePlayers && hasPermission(p.userId, AdminPermission)
    decreases |activePlayers|
  {
    if activePlayers != [] {
      var front := activePlayers[..|activePlayers| - 1];
      AdminRecipientsAreOnlineAdmins(front, hasPermission, p);
      assert activePlayers == front + [activePlayers[|activePlayers| - 1]];
    }
  }

  /** `NotifyOnlineAdmins`: sends NewMailAlert to each online admin; returns who got it. */
  method NotifyOnlineAdmins(activePlayers: seq<Option<Player>>, hasPermission: Permissions) returns (alerted: seq<Player>)
    ensures alerted == AdminRecipients(activePlayers, hasPermission)
  {
    alerted := [];
    var i := 0;
    while i < |activePlayers|
      invariant 0 <= i <= |activePlayers|
      invariant alerted == AdminRecipients(activePlayers[..i], hasPermission)
    {
      var player := activePlayers[i];
      assert activePlayers[..i + 1][..i] == activePlayers[..i];
      if player.Some? && hasPermission(player.value.userId, AdminPermission) {
        alerted := alerted + [player.value];
      }
      i := i + 1;
    }
    assert activePlayers[..i] == activePlayers;
  }

  /** The persisted document's path. */
  function DataPath(): string {
    GetFilePath(None)
  }

  class ModMail {
    var config: Configuration
    var mails: seq<MailData>
    var lastMailTimes: LastMailTimes
    var spawned: map<Container, bool>
    var dataFiles: DataFiles<StoredData>

    /** Every tracked container is alive, and every mailbox has one slot. */
    ghost predicate Valid()
      reads this, spawned.Keys
    {
      forall c :: c in spawned ==> !c.killed && (spawned[c] ==> c.capacity == 1)
    }

    /** A plugin instance over the host's data directory, with the default
        configuration, no mail and nothing tracked. */
    constructor (dataDirectory: DataFiles<StoredData>)
      ensures Valid()
      ensures config == GetDefaultConfig() && mails == [] && lastMailTimes == map[]
      ensures spawned == map[] && dataFiles == dataDirectory
    {
      config := GetDefaultConfig();
      mails := [];
      lastMailTimes := map[];
      spawned := map[];
      dataFiles := dataDirectory;
    }

    /** `UpdateConfig`. */
    method UpdateConfig()
      modifies this
      ensures config == Settings.UpdateConfig(old(config))
      ensures mails == old(mails) && lastMailTimes == old(lastMailTimes)
      ensures spawned == old(spawned) && dataFiles == old(dataFiles)
    {
      var defaultConfig := GetDefaultConfig();
      if Compare(config.version, Some(OldestKeptVersion)) < 0 {
        config := defaultConfig;
      }
      config := config.(version := Some(PluginVersion));
    }

    /** `LoadConfig`, given what the configuration file reads as. */
    method LoadConfig(read: Configuration)
      modifies this
      ensures config == Migrate(read) && !IsOutdated(config)
      ensures mails == old(mails) && lastMailTimes == old(lastMailTimes)
      ensures spawned == old(spawned) && dataFiles == old(dataFiles)
    {
      config := read;
      if Compare(config.version, Some(PluginVersion)) < 0 {
        UpdateConfig();
      }
      MigrateIdempotent(read);
    }

    /** `Init`: the archive is what the data file holds, or empty. */
    method Init()
      modifies this
      ensures mails == LoadOrCreate(dataFiles, DataPath(), StoredData([])).mails
      ensures DataPath() in dataFiles && dataFiles[DataPath()].Some? ==> mails == dataFiles[DataPath()].value.mails
      ensures DataPath() !in dataFiles || dataFiles[DataPath()].None? ==> mails == []
      ensures config == old(config) && lastMailTimes == old(lastMailTimes)
      ensures spawned == old(spawned) && dataFiles == old(dataFiles)
    {
      var storedData := LoadOrCreate(dataFiles, GetFilePath(None), StoredData([]));
      mails := storedData.mails;
    }

    /** Accepts a mail into the archive and saves the archive. */
    method ArchiveMail(mail: MailData)
      modifies this
      ensures mails == Accept(old(mails), config.maximumArchiveCapacity, mail)
      ensures dataFiles == Save(old(dataFiles), DataPath(), StoredData(mails))
      ensures config == old(config) && lastMailTimes == old(lastMailTimes) && spawned == old(spawned)
    {
      if config.maximumArchiveCapacity > 0 && |mails| >= config.maximumArchiveCapacity {
        mails := mails[1..];
      }
      mails := mails + [mail];
      dataFiles := Save(dataFiles, GetFilePath(None), StoredData(mails));
    }

    /** `CreateStorageContainer`: spawns a container and tracks it with its
        mode; a mailbox is cut down to one slot. */
    method CreateStorageContainer(shouldCaptureNote: bool, entityCreated: bool, prefabSlots: nat)
      returns (container: Container?)
      requires Valid()
      modifies this
      ensures Valid()
      ensures !entityCreated ==> container == null && spawned == old(spawned)
      ensures entityCreated ==>
                && container != null && fresh(container)
                && spawned == old(spawned)[container := shouldCaptureNote]
                && container.capacity == (if shouldCaptureNote then 1 else prefabSlots)
                && container.items == map[] && !container.killed
      ensures config == old(config) && mails == old(mails)
      ensures lastMailTimes == old(lastMailTimes) && dataFiles == old(dataFiles)
    {
      if !entityCreated {
        return null;
      }
      container := new Container(prefabSlots);
      if shouldCaptureNote {
        container.capacity := 1;
      }
      spawned := spawned[container := shouldCaptureNote];
    }

    /** `StockMailArchive`: puts one note per archived mail into the first
        free slot; a note that finds no free slot is discarded. */
    method StockMailArchive(container: Container, formatDate: int -> string)
      requires Valid() && container.items == map[]
      modifies container
      ensures Valid()
      ensures container.items == ArchiveView(mails, container.capacity, formatDate)
      ensures container.capacity == old(container.capacity) && container.killed == old(container.killed)
    {
      var i := 0;
      while i < |mails|
        invariant 0 <= i <= |mails|
        invariant container.items == ArchiveView(mails[..i], container.capacity, formatDate)
        invariant container.capacity == old(container.capacity) && container.killed == old(container.killed)
      {
        var noteItem := ArchiveNote(mails[i], formatDate);
        ArchiveViewStep(mails, i, container.capacity, formatDate);
        var slot := FirstFreeSlot(container.items, container.capacity);
        if slot.Some? {
          container.items := container.items[slot.value := noteItem];
        }
        i := i + 1;
      }
      assert mails[..i] == mails;
    }

    /** `cmdSendMail`: permission, then cooldown, then the cooldown is
        consumed and a one-slot mailbox is spawned for the player. */
    method SendMail(player: Option<Player>, hasPermission: Permissions, now: int,
                    entityCreated: bool, prefabSlots: nat)
      returns (reply: Option<Lang>, mailbox: Container?)
      requires Valid()
      modifies this
      ensures Valid()
      ensures config == old(config) && mails == old(mails) && dataFiles == old(dataFiles)
      ensures player.None? ==>
                reply == None && mailbox == null
                && lastMailTimes == old(lastMailTimes) && spawned == old(spawned)
      ensures player.Some? && !hasPermission(player.value.userId, UsePermission) ==>
                reply == Some(NoPermission) && mailbox == null
                && lastMailTimes == old(lastMailTimes) && spawned == old(spawned)
      ensures player.Some? && hasPermission(player.value.userId, UsePermission)
              && !Admits(old(lastMailTimes), player.value.userId, now, config.mailCooldownSeconds) ==>
                reply == Some(MailCooldown) && mailbox == null
                && lastMailTimes == old(lastMailTimes) && spawned == old(spawned)
      ensures player.Some? && hasPermission(player.value.userId, UsePermission)
              && Admits(old(lastMailTimes), player.value.userId, now, config.mailCooldownSeconds) ==>
                && lastMailTimes == old(lastMailTimes)[player.value.userId := now]
                && (!entityCreated ==> reply == Some(MailboxCreateFail) && mailbox == null && spawned == old(spawned))
                && (entityCreated ==>
                      && reply == Some(MailboxOpenPrompt) && mailbox != null && fresh(mailbox)
                      && spawned == old(spawned)[mailbox := true]
                      && mailbox.capacity == 1 && mailbox.items == map[])
    {
      reply, mailbox := None, null;
      if player.None? {
        return;
      }
      var p := player.value;
      if !hasPermission(p.userId, UsePermission) {
        reply := Some(NoPermission);
        return;
      }
      if p.userId in lastMailTimes {
        var secondsSince := now - lastMailTimes[p.userId];
        if secondsSince < config.mailCooldownSeconds {
          reply := Some(MailCooldown);
          return;
        }
      }
      lastMailTimes := lastMailTimes[p.userId := now];
      mailbox := CreateStorageContainer(true, entityCreated, prefabSlots);
      if mailbox == null {
        reply := Some(MailboxCreateFail);
        return;
      }
      reply := Some(MailboxOpenPrompt);
    }

    /** `cmdOpenMailArchive`: for admins, spawns a browse container stocked
        with the archive; nothing else changes. */
    method OpenMailArchive(player: Option<Player>, hasPermission: Permissions, entityCreated: bool,
                           prefabSlots: nat, formatDate: int -> string)
      returns (reply: Option<Lang>, view: Container?)
      requires Valid()
      modifies this
      ensures Valid()
      ensures config == old(config) && mails == old(mails)
      ensures lastMailTimes == old(lastMailTimes) && dataFiles == old(dataFiles)
      ensures player.None? ==> reply == None && view == null && spawned == old(spawned)
      ensures player.Some? && !hasPermission(player.value.userId, AdminPermission) ==>
                reply == Some(NoPermission) && view == null && spawned == old(spawned)
      ensures player.Some? && hasPermission(player.value.userId, AdminPermission) && !entityCreated ==>
                reply == Some(MailArchiveCreateFail) && view == null && spawned == old(spawned)
      ensures player.Some? && hasPermission(player.value.userId, AdminPermission) && entityCreated ==>
                && reply == Some(MailArchiveOpenPrompt) && view != null && fresh(view)
                && spawned == old(spawned)[view := false]
                && view.capacity == prefabSlots
                && view.items == ArchiveView(mails, prefabSlots, formatDate)
    {
      reply, view := None, null;
      if player.None? {
        return;
      }
      if !hasPermission(player.value.userId, AdminPermission) {
        reply := Some(NoPermission);
        return;
      }
      view := CreateStorageContainer(false, entityCreated, prefabSlots);
      if view == null {
        reply := Some(MailArchiveCreateFail);
        return;
      }
      StockMailArchive(view, formatDate);
      reply := Some(MailArchiveOpenPrompt);
    }

    /**
     * The slot scan of `OnPlayerLootEnd` for a mailbox whose player is
     * present: the first note decides; a blank one is refused, otherwise its
     * trimmed text is archived, saved, posted to the webhook when one is
     * configured, and announced to the online admins.
     */
    method CaptureNote(items: map<nat, Item>, capacity: nat, player: Player, now: int,
                       activePlayers: seq<Option<Player>>, hasPermission: Permissions)
      returns (outcome: LootEnd)
      modifies this
      ensures config == old(config) && lastMailTimes == old(lastMailTimes) && spawned == old(spawned)
      ensures match ScanForNote(items, capacity)
              case NoNote => outcome == NoNoteFound
              case BlankNote => outcome == BlankNoteFound
              case Note(content) =>
                outcome == Archived(MailData(player.displayName, player.userId, now, content),
                                    !IsNullOrEmpty(config.discordWebhookUrl),
                                    AdminRecipients(activePlayers, hasPermission))
      ensures outcome.Archived? ==> ValidContent(outcome.mail.content)
      ensures old(AllValid(mails)) ==> AllValid(mails)
      ensures mails == if outcome.Archived?
                       then Accept(old(mails), config.maximumArchiveCapacity, outcome.mail)
                       else old(mails)
      ensures dataFiles == if outcome.Archived?
                           then Save(old(dataFiles), DataPath(), StoredData(mails))
                           else old(dataFiles)
    {
      outcome := NoNoteFound;
      var i := 0;
      while i < capacity
        invariant 0 <= i <= capacity
        invariant forall j :: 0 <= j < i ==> !IsNoteAt(items, j)
        invariant outcome == NoNoteFound
        invariant unchanged(this)
      {
        var item := GetSlot(items, i);
        if item.Some? && item.value.shortname == NoteShortname {
          assert IsNoteAt(items, i);
          assert FirstNoteSlot(items, capacity) == Some(i);
          if IsNullOrWhiteSpace(item.value.text) {
            outcome := BlankNoteFound;
            break;
          } else {
            var noteContent := Trim(item.value.text.value);
            var mailData := MailData(player.displayName, player.userId, now, noteContent);
            if AllValid(mails) {
              AcceptKeepsValid(mails, config.maximumArchiveCapacity, mailData);
            }
            ArchiveMail(mailData);
            var webhookPosted := !IsNullOrEmpty(config.discordWebhookUrl);
            var alerted := NotifyOnlineAdmins(activePlayers, hasPermission);
            outcome := Archived(mailData, webhookPosted, alerted);
            break;
          }
        }
        i := i + 1;
      }
    }

    /**
     * `OnPlayerLootEnd`: a tracked container that closes is always untracked
     * and killed. Closing a mailbox with its player present archives the
     * trimmed text of its first note, unless the text is blank; closing an
     * archive view changes nothing else. At most one mail is archived.
     */
    method OnPlayerLootEnd(container: Container?, player: Option<Player>, now: int,
                           activePlayers: seq<Option<Player>>, hasPermission: Permissions)
      returns (outcome: LootEnd)
      requires Valid()
      modifies this, container
      ensures Valid()
      ensures config == old(config) && lastMailTimes == old(lastMailTimes)
      ensures container != null ==>
                container.items == old(container.items) && container.capacity == old(container.capacity)
      ensures container == null || container !in old(spawned) ==>
                && outcome == NotTracked && spawned == old(spawned)
                && (container != null ==> container.killed == old(container.killed))
      ensures container != null && container in old(spawned) ==>
                spawned == old(spawned) - {container} && container.killed
      ensures container != null && container in old(spawned) && !old(spawned[container]) ==>
                outcome == Browsed
      ensures container != null && container in old(spawned) && old(spawned[container]) && player.None? ==>
                outcome == PlayerGone
      ensures container != null && container in old(spawned) && old(spawned[container]) && player.Some? ==>
                match ScanForNote(container.items, 1)
                case NoNote => outcome == NoNoteFound
                case BlankNote => outcome == BlankNoteFound
                case Note(content) =>
                  outcome == Archived(MailData(player.value.displayName, player.value.userId, now, content),
                                      !IsNullOrEmpty(config.discordWebhookUrl),
                                      AdminRecipients(activePlayers, hasPermission))
      ensures outcome.Archived? ==> ValidContent(outcome.mail.content)
      ensures old(AllValid(mails)) ==> AllValid(mails)
      ensures mails == if outcome.Archived?
                       then Accept(old(mails), config.maximumArchiveCapacity, outcome.mail)
                       else old(mails)
      ensures dataFiles == if outcome.Archived?
                           then Save(old(dataFiles), DataPath(), StoredData(mails))
                           else old(dataFiles)
    {
      if container == null || container !in spawned {
        return NotTracked;
      }
      var shouldCaptureNote := spawned[container];
      outcome := Browsed;
      if shouldCaptureNote {
        if player.None? {
          spawned := spawned - {container};
          container.killed := true;
          return PlayerGone;
        }
        outcome := CaptureNote(container.items, container.capacity, player.value, now,
                               activePlayers, hasPermission);
      }
      spawned := spawned - {container};
      container.killed := true;
    }
  }
}
