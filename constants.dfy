/** The description markers and topic labels shared by the reconciliation code. */
module Constants {

  /** Marks a destination repository as a managed backup. */
  const BackupPrefix: string := "[backup]"

  /** Excludes a backup repository from ref synchronisation. */
  const IgnorePrefix: string := "[ignore]"

  /** Topic put on managed backups. */
  const BackupLabel: string := "gitr-backup"

  /** Topic put on every other repository. */
  const PrivateLabel: string := "private"
}
