# Mod Mail — a Dafny model of the mail bookkeeping

Mod Mail is a plugin for a game server. It gives players a private way to
write to the server's moderators. A player with the `modmail.use`
permission types the send-mail command. After a per-sender cooldown check,
the plugin spawns a one-slot storage container, the mailbox. When the
player closes it, the first note in it becomes a mail. The mail records
the sender's name and id, the time, and the note's text with white space
trimmed from both ends. It is appended to a bounded archive that is saved
to a data file. It is posted to a Discord webhook when one is configured,
and announced to every online admin. A moderator with the `modmail.admin`
permission types the open-mail command. That spawns a browse container
stocked with one note per archived mail. Every container the plugin
spawns is tracked with its mode. When it closes, it is untracked and
killed.

The model covers:

- the archive;
- the cooldown table;
- the table of tracked containers;
- the two chat commands;
- the close handler;
- the data-file helpers;
- the configuration's version migration;
- the .NET string operations these rely on.

Modules, one per file:

- `Wrappers` (`wrappers.dfy`): `Option`, the model of a nullable reference.
- `Players` (`players.dfy`): the 64-bit unsigned user id and the player
  who sends or receives mail.
- `Text` (`text.dfy`): `char.IsWhiteSpace`, `string.IsNullOrWhiteSpace`,
  `string.IsNullOrEmpty`, `string.Trim`, `string.Compare`, and the decimal
  rendering of an id.
- `DataFileUtil` (`data_file_util.dfy`): the plugin's `DataFileUtil`
  helper class. The host's data directory is a map from path to what the
  file deserialises to.
- `Settings` (`settings.dfy`): `Configuration`, its defaults, and the
  migration `LoadConfig` performs.
- `Archive` (`archive.dfy`): `MailData`, `StoredData`, and the rule that
  accepts one mail into the bounded archive. Also lemmas about sequences of
  accepts.
- `Cooldown` (`cooldown.dfy`): the admission rule of the send-mail
  command.
- `Mailbox` (`mailbox.dfy`): items, the `Container` class (slot count,
  occupied slots, killed flag), the slot scans, and the content of a
  stocked archive view.
- `Plugin` (`plugin.dfy`): the class `ModMail`. Its fields are the
  configuration, the archive, the cooldown table, the spawned-container
  table and the data directory. Its methods are the hooks and commands
  that update them.

Time is whole seconds, as an `int`. Permissions are a function from a user
id and a permission name to `bool`. Whether the game creates a container
entity, the storage prefab's slot count, and the local date format are
parameters of the methods that use them.

Three behaviours of the close handler are worth spelling out:

- The "empty note" message goes out only when a note is present and its
  text is null or white space. A mailbox closed with no note at all ends
  silently (`LootEnd.NoNoteFound`).
- The handler takes the first item whose short name is `note` over all the
  container's slots. A mailbox has one slot, so only slot 0 decides.
- A mailbox closed with no player attached is untracked and killed, and
  nothing is archived (`LootEnd.PlayerGone`).

## Model

| member | source | states |
|---|---|---|
| Text.Trim | ModMail.cs:188 | The trimmed note text has no white space at either end. It is empty exactly when the text is all white space. It is the text minus a white-space prefix and a white-space suffix. |
| Text.CompareOrdinal | ModMail.cs:83 | The version comparison returns -1, 0 or 1, and 0 exactly when the two strings are equal. |
| Text.CompareOrdinalAntisymmetric | ModMail.cs:83 | Swapping the two strings negates the comparison. |
| Text.CompareOrdinalOrder | ModMail.cs:83 | The comparison is negative exactly when the first string orders before the second character by character: it is a proper prefix of the second, or at the first differing position its character is the smaller. |
| Text.Compare | ModMail.cs:61 | `string.Compare` on nullable strings: 0 exactly for equal values, and a null version orders before any string. |
| Text.CompareAntisymmetric | ModMail.cs:61 | a orders before b exactly when b orders after a. |
| Text.Decimal | ModMail.cs:252 | The sender id printed in an archive note is non-empty and all digits. It has no leading zero unless it is "0", and it reads back as the id. |
| DataFileUtil.PathCombineEmptyFolder | ModMail.cs:350-357 | `Path.Combine` with the plugin's empty folder leaves every file name unchanged, so a data file's path is its name. |
| DataFileUtil.LoadOrCreate | ModMail.cs:393-400 | Never null: the stored object when the file exists and reads as non-null, otherwise a new empty object. |
| DataFileUtil.LoadVariantsAgree | ModMail.cs:376-400 | `LoadOrCreate` and `Load` give the same object on every path, because a missing file reads as null. `LoadIfExists` is null exactly when the file is missing, and otherwise holds that same object. |
| DataFileUtil.SaveThenLoad | ModMail.cs:402-405 | After `Save`, loading that path returns the saved object, and every other path loads as before. |
| DataFileUtil.DeleteThenLoad | ModMail.cs:407-410 | After `Delete`, the file no longer exists and loads as a new empty object. Every other path loads as before. |
| DataFileUtil.WithoutExtensionInverse | ModMail.cs:365 | Removing the last five characters undoes appending ".json". |
| DataFileUtil.FirstShortPath | ModMail.cs:363-366 | The index where `Substring` throws: every earlier path has at least five characters and the path at that index has fewer. |
| DataFileUtil.GetAllFilePaths | ModMail.cs:360-369 | Each listed path up to the first one shorter than five characters loses its extension, in place. The later paths are untouched. The call succeeds exactly when no path is too short. |
| Settings.GetDefaultConfig | ModMail.cs:90-101 | The defaults are: current version, commands "sendmail" and "openmail", capacity 48, a 60-second cooldown, and no webhook. |
| Settings.UpdateConfig | ModMail.cs:77-88 | The result carries the plugin version. A configuration older than "1.0.0" becomes the defaults. A newer one keeps every other setting. |
| Settings.MigrateResetsOrKeeps | ModMail.cs:56-65 | On load, an outdated configuration, including one with no version, is reset to the defaults. An up-to-date one is kept unchanged. |
| Settings.MigrateIdempotent | ModMail.cs:56-65 | A loaded configuration is never outdated, and loading it again changes nothing. |
| Settings.DefaultConfigIsCurrent | ModMail.cs:90-101 | The defaults are current, and loading them keeps them. |
| Settings.PreReleaseConfigIsReset | ModMail.cs:56-65 | A configuration whose version is "0.9.0" is outdated, and loading it resets it to the defaults. |
| Archive.Accept | ModMail.cs:190-201 | When the capacity is positive and reached, the oldest mail is dropped and the new mail goes last, keeping the length. Otherwise the new mail is appended and nothing is dropped. |
| Archive.AcceptKeepsValid | ModMail.cs:181-201 | Accepting a mail whose content is non-empty and trimmed keeps every archived content non-empty and trimmed. |
| Archive.AcceptIsNewest | ModMail.cs:190-201 | Within a positive capacity K, accepting one mail leaves the newest K of the old archive followed by the mail. |
| Archive.AcceptAllKeepsNewest | ModMail.cs:190-201 | From an archive within a positive capacity K, any sequence of accepts leaves exactly the newest K mails of old and new together, oldest first. |
| Archive.AcceptAllUnbounded | ModMail.cs:190 | With a capacity of 0 or less, no mail is ever evicted. |
| Archive.CapacityTwoScenario | ModMail.cs:190-201 | Three mails accepted into an empty archive of capacity 2 leave the second and third. |
| Cooldown.CooldownWindow | ModMail.cs:428-439 | After an admission at t, the same sender is admitted again at t + d exactly when d is at least the cooldown. Other senders are unaffected. |
| Cooldown.OneMinuteScenario | ModMail.cs:428-439 | With a 60-second cooldown, a new sender's requests at 0, 30 and 61 seconds are admitted, refused and admitted. |
| Mailbox.Container.constructor | ModMail.cs:227-234 | A spawned container has the prefab's slot count, is empty, and is alive. |
| Mailbox.FirstNoteSlot | ModMail.cs:176-179 | The first slot holding an item with short name "note". No earlier slot, and no slot at all when none is found, holds one. |
| Mailbox.ScanForNote | ModMail.cs:176-188 | No note exactly when no slot holds one. A blank note exactly when the first note's text is null or white space. Otherwise the mail content is the `Trim` of the first note's text, and it is non-empty and trimmed. |
| Mailbox.ScanOneSlot | ModMail.cs:176-188 | In a one-slot mailbox, slot 0 alone decides: no note there means no note, a blank note there means a blank note, and otherwise the content is its trimmed text. |
| Mailbox.FirstFreeSlot | ModMail.cs:255 | Where `MoveToContainer` puts an item: the first empty slot, with every earlier slot occupied. |
| Mailbox.ArchiveNote | ModMail.cs:247-253 | A stocked note is a "note" item whose text begins with the mail's content. |
| Mailbox.ArchiveViewFreeSlot | ModMail.cs:255-256 | With the first n mails stocked, the next free slot is n while n is below the slot count, and there is none after that. |
| Mailbox.ArchiveViewExtend | ModMail.cs:245-257 | Stocking one more mail adds its note in the next slot when a slot is free. Otherwise the view is unchanged and the note is discarded. |
| Mailbox.ArchiveViewStep | ModMail.cs:245-257 | One iteration of the stocking loop turns the view of mails [0, i) into the view of mails [0, i]. |
| Plugin.AdminRecipientsAreOnlineAdmins | ModMail.cs:264-273 | A player gets the new-mail alert exactly when they are among the active players and hold `modmail.admin`. Null entries are skipped. |
| Plugin.NotifyOnlineAdmins | ModMail.cs:264-273 | The alert loop reaches exactly the online admins, in list order. |
| Plugin.ModMail.constructor | ModMail.cs:22-27 | The cooldown table and the spawned-container table start empty. |
| Plugin.ModMail.UpdateConfig | ModMail.cs:77-88 | The configuration becomes `Settings.UpdateConfig` of the old one. Nothing else changes. |
| Plugin.ModMail.LoadConfig | ModMail.cs:56-65 | The kept configuration is the migration of what was read, and it is never outdated. |
| Plugin.ModMail.Init | ModMail.cs:132-139 | The archive is the data file's mails, or empty when the file is missing or reads as null. |
| Plugin.ModMail.ArchiveMail | ModMail.cs:190-202 | The archive becomes `Accept` of the old archive. The data file "ModMail" then holds the new archive. |
| Plugin.ModMail.CreateStorageContainer | ModMail.cs:225-241 | If the entity is created: a new, empty, live container, tracked with its mode. A mailbox has one slot, a view the prefab's count. Otherwise null, and nothing is tracked. Tracked containers stay alive and mailboxes stay one-slot. |
| Plugin.ModMail.StockMailArchive | ModMail.cs:243-258 | The view holds note j for mail j, for as many mails as it has slots. Later notes are discarded. |
| Plugin.ModMail.SendMail | ModMail.cs:417-454 | No player: nothing happens. No `modmail.use`: NoPermission. Within the cooldown: MailCooldown, nothing recorded. Otherwise the time is recorded even when creating the mailbox fails (MailboxCreateFail); on success a new one-slot mailbox is tracked (MailboxOpenPrompt). |
| Plugin.ModMail.OpenMailArchive | ModMail.cs:456-482 | No player: nothing happens. No `modmail.admin`: NoPermission. Creation failure: MailArchiveCreateFail. Otherwise a new browse container is tracked and stocked with the archive view. The archive and the cooldowns never change. |
| Plugin.ModMail.CaptureNote | ModMail.cs:176-214 | Determined by `ScanForNote`. No note: nothing happens. A blank note: EmptyNote. A note: exactly one mail with the player, the time and the trimmed text is accepted and saved; the webhook is posted when the URL is non-empty; the online admins are alerted. |
| Plugin.ModMail.OnPlayerLootEnd | ModMail.cs:154-219 | An untracked container changes nothing and is not killed. A tracked one is always untracked and killed. A view changes nothing else. A mailbox with no player archives nothing. Otherwise slot 0 decides, as `ScanForNote` over one slot, with the effects of `CaptureNote`. At most one mail is archived. Archived contents stay non-empty and trimmed. |

## Left out

- `Unload` (ModMail.cs:141-152): it kills every tracked container and clears the table at shutdown. It has no bearing on the mail invariants.
- `SendToDiscord` (ModMail.cs:275-304): only its guard is modelled, as the `webhookPosted` flag. The message template, the JSON body, the asynchronous request and the logging of its status code are I/O.
- `MessagePlayer` and localisation: a message is its `Lang` key, returned as `reply` or implied by the `LootEnd` outcome. The localised text is not modelled.
- Dates: a timestamp is an `int` number of seconds. `ToLocalTime().ToString("g")` is the `formatDate` parameter.
- Plugin.ModMail.SendMail: the cooldown is compared in whole seconds, not as `double` and `float`. Both `DateTime.UtcNow` reads are one `now` parameter.
- Text.Compare: `string.Compare` is culture-sensitive in .NET. It is modelled as ordinal comparison, which agrees with it on version strings made of digits and dots.
- Text.Trim: strings are sequences of code points, not UTF-16 code units. Surrogate pairs are not modelled.
- Permission backend, `RegisterPermissions` and chat command registration are host calls, modelled by the `hasPermission` parameter or left out.
- Entity plumbing (`enableSaving`, `limitNetworking`, `RemoveProblematicComponents`, `Spawn`) and the timers that open the container for the player are side effects of no consequence for the bookkeeping.
- `ItemManager.CreateByName("note")` is assumed to succeed, since the note item definition exists. Its `continue` branch is not modelled.
- Mailbox.FirstFreeSlot: `MoveToContainer` is modelled as placing the note in the first empty slot. Stacking does not apply to notes.
- `SaveConfig`, `LoadDefaultConfig` and reading the configuration file are I/O. `LoadConfig` takes what the file reads as.
- JSON (de)serialisation of the data file is not modelled. The data directory maps a path to the deserialised object, or to `None` for a file that reads as null.
- Plugin.ModMail.constructor: `config` and `mails` start as placeholders, the defaults and the empty archive. In the source `_config` and `_storedData` are null until `LoadConfig` and `Init` run.
- `Path.Combine` is modelled with `/` as the only separator and rooted paths as those starting with it. Drive letters and `\` are not modelled. With the plugin's empty folder, this makes no difference.
- Concurrency and game-thread scheduling: every hook and command runs to completion, one at a time.
