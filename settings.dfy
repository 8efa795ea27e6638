/**
 * The plugin's configuration and its version migration. The version string
 * may be missing from the configuration file (null); the cooldown is in
 * whole seconds.
 */
module Settings {
  import opened Wrappers
  import opened Text

  /** The version the plugin declares in its `Info` attribute. */
  const PluginVersion: string := "1.0.0"

  /** Configurations older than this are replaced by the defaults. */
  const OldestKeptVersion: string := "1.0.0"

  datatype Configuration = Configuration(
    version: Option<string>,
    sendMailChatCommand: string,
    openMailArchiveChatCommand: string,
    maximumArchiveCapacity: int,
    mailCooldownSeconds: int,
    discordWebhookUrl: Option<string>)

  /** The defaults: current version, commands "sendmail" and "openmail", an
      archive of 48 mails, a one-minute cooldown and no webhook. */
  function GetDefaultConfig(): (c: Configuration)
    ensures c.version == Some(PluginVersion)
    ensures c.sendMailChatCommand == "sendmail" && c.openMailArchiveChatCommand == "openmail"
    ensures c.maximumArchiveCapacity == 48 && c.mailCooldownSeconds == 60
    ensures IsNullOrEmpty(c.discordWebhookUrl)
  {
    Configuration(Some(PluginVersion), "sendmail", "openmail", 48, 60, Some(""))
  }

  predicate IsOutdated(c: Configuration) {
    Compare(c.version, Some(PluginVersion)) < 0
  }

  /** `UpdateConfig`: a configuration older than the oldest kept version is
      replaced by the defaults; then the current version is stamped on it. */
  function UpdateConfig(c: Configuration): (updated: Configuration)
    ensures updated.version == Some(PluginVersion)
    ensures Compare(c.version, Some(OldestKeptVersion)) < 0 ==> updated == GetDefaultConfig()
    ensures Compare(c.version, Some(OldestKeptVersion)) >= 0 ==> updated == c.(version := Some(PluginVersion))
  {
    var base := if Compare(c.version, Some(OldestKeptVersion)) < 0 then GetDefaultConfig() else c;
    base.(version := Some(PluginVersion))
  }

  /** The configuration `LoadConfig` keeps after reading `read` from the file. */
  function Migrate(read: Configuration): Configuration {
    if IsOutdated(read) then UpdateConfig(read) else read
  }

  /** Because the plugin version is the oldest kept version, every outdated
      configuration (a missing version included) is reset to the defaults,
      and an up-to-date one is kept exactly. */
  lemma MigrateResetsOrKeeps(read: Configuration)
    ensures IsOutdated(read) ==> Migrate(read) == GetDefaultConfig()
    ensures !IsOutdated(read) ==> Migrate(read) == read
    ensures read.version.None? ==> Migrate(read) == GetDefaultConfig()
  {
  }

  /** Loading never leaves an outdated configuration behind, and loading
      what was loaded changes nothing. */
  lemma MigrateIdempotent(read: Configuration)
    ensures !IsOutdated(Migrate(read))
    ensures Migrate(Migrate(read)) == Migrate(read)
  {
    if IsOutdated(read) {
      assert Migrate(read).version == Some(PluginVersion);
    }
  }

  /** A configuration written by a pre-release "0.9.0" is reset on load,
      because "0.9.0" orders before "1.0.0" at its first character. */
  lemma PreReleaseConfigIsReset(read: Configuration)
    requires read.version == Some("0.9.0")
    ensures IsOutdated(read) && Migrate(read) == GetDefaultConfig()
  {
    assert "0.9.0"[..0] == PluginVersion[..0];
    CompareOrdinalOrder("0.9.0", PluginVersion);
  }

  /** The defaults are current: loading them keeps them. */
  lemma DefaultConfigIsCurrent()
    ensures !IsOutdated(GetDefaultConfig())
    ensures Migrate(GetDefaultConfig()) == GetDefaultConfig()
  {
  }
}
