/** The boot context: the flags finit reads from the kernel command line and
    its configuration, and the answers the machine gives while booting. */
module Context {

  datatype Option<T> = None | Some(value: T)

  /** One line of /etc/fstab as getfsent() returns it. `kind` is the entry's
      access class derived from its mount options ("rw", "ro", "sw", ...),
      not the file system type. */
  datatype FsEntry = FsEntry(spec: string, file: string, kind: string, passno: int)

  /** Boot flags: `rescue`, `debug` and `silent` come from the kernel command
      line, `runparts` and `cfglevel` from the configuration. */
  datatype Options = Options(
    rescue: bool,
    debug: bool,
    silent: bool,             // log_is_silent() when the banner is shown
    runparts: Option<string>, // run-parts directory, NULL when unset
    cfglevel: int)            // configured runlevel, or the compiled default

  /** What the machine answers during boot. Every query the boot sequence
      makes of the outside world is one of these fields. */
  datatype Machine = Machine(
    fstab: Option<seq<FsEntry>>,              // None: setfsent() fails
    isBlockDevice: string -> bool,            // stat(spec) succeeds and S_ISBLK
    stringMatch: (string, string) -> bool,    // string_match(s, prefix)
    mountedRw: string -> bool,                // ismnt("/proc/mounts", file, "rw")
    fsckExit: string -> int,                  // status of the command "fsck -a <arg>"
    mountExit: int,                           // status of "mount -na"
    isDir: string -> bool,                    // fisdir()
    rcLocalExecutable: bool,                  // access(rc.local, X_OK) == 0
    completed: nat -> bool)                   // service_completed() on worker run k, k >= 1
}
