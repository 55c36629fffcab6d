# qssh: a verified model

qssh keeps SSH profiles in an encrypted store, runs a daemon per profile, and
offers commands, SFTP and WebDAV over it. This project models the parts where
several goroutines or processes meet, or where text and trees are transformed,
and proves what those parts are meant to guarantee. `dafny verify dfyconfig.toml`
checks everything.

Concurrent code is a step system: a state, the steps that are enabled in it, and
runs, which are any sequences of enabled steps. The main theorems quantify over all
runs. Code that updates fields, arrays or files in place is a class or a method
with loops, tied by its contract to a function that the lemmas are about.

## Files

| files | what they model |
|---|---|
| `ExecProtocol`, `ExecLoops`, `ExecSafety`, `ExecStdin`, `ExecLiveness`, `ExecDeadlock`, `ExecRefusal`, `Base64` | one command run through the daemon: client loop, stdin goroutine, request handler, stdin pump, two output streamers, one connection with bounded buffers |
| `DaemonCore`, `DaemonLifecycle`, `DaemonObject`, `DaemonLimits` | all interleavings of handlers, timer, SFTP servers and shutdowns; the daemon object, whose methods each take one step of them; where its guarantees end |
| `LockedFile`, `SharedFiles`, `StateFiles` | files shared by processes: lock, reload, change, write temporary, rename, unlock, with crashes; the config and daemon state objects |
| `Profiles`, `Keyring`, `Store`, `StoreProcesses` | profile validation, the store and keyring objects, and many processes over one encrypted store |
| `ProxyChain`, `JumpDial` | the two jump-host resolvers, the identity re-check, and the dial loop with its clean-up |
| `HostKeys` | concurrent first-use host key checks over one known_hosts file |
| `RemoteTree`, `WebDavCopy`, `CopyOrder`, `Ranges` | recursive COPY and MOVE on a remote tree whose calls may fail; copies that overlap their source; byte ranges |
| `Text`, `ShellQuote`, `Sorting`, `SetEnv`, `Options` | shell quoting against a POSIX word splitter; the SetEnv merge; option editing |
| `History`, `HistoryRace` | the size-capped history file; processes that append to it and trim it without a lock |

## Findings

Where a promise does not hold in general, the condition under which it does is
proved, with a run or an input that shows the rest:

- A finished remote command hangs when the local stdin is neither a terminal nor
  ever ends: the daemon sends `exit` only after the stdin pump stops, and the client
  cancels its stdin only after `exit`. The comment at cmd/daemon_client.go:61-64
  claims the opposite. The exchange is deadlock-free exactly when the local stdin
  ends (`ExecDeadlock.DeadlockFreeIffStdinEnds`); the only other way out is a client
  that goes away (`ExecDeadlock.DisconnectEnds`).
- If the SFTP server stops on its own, nothing re-arms the idle timer. The idle exit
  is lost exactly when a server is cleaned up while nobody is left to look
  (`DaemonLifecycle.IdleExitLostExactly`, `DaemonLimits.IdleExitLostWhenServerEnds`).
- A mount committed while another server is open, or a server cleaned up while
  another is open, leaves a server on a listener that is on no record; nothing else
  does. No unmount reaches such a listener, and a stop ends it only by ending the
  process (`DaemonLimits.ListenersOnRecord`, `DaemonLimits.ForgottenUntilExit`,
  `DaemonLimits.StopEndsAll`, `DaemonLimits.TwoMountsRace`).
- A state file that cannot be read counts as empty, and the update goes on: one
  acknowledged update then drops every other entry. Updates are kept exactly when
  no such update is renamed over other entries (`SharedFiles.DaemonStateFaithfulIff`,
  `SharedFiles.DaemonStateDropped`).
- A store or config handle that is used again after its first save failed, while
  there is still no file, writes the failed update as well. For the store that is
  wrong for every two updates; for the config it is right exactly when the failed
  setting was a removal or is overwritten (`SharedFiles.StorePhantom`,
  `SharedFiles.ConfigPhantom`).
- A known_hosts append does not look at how the file ends. After a write that lost
  only its newline, the next first-use key is accepted and glued to that line, and
  the file is unreadable from then on (`HostKeys.LostNewline`). If the file one
  starts from ends without newline and with anything after the key, a blank included,
  or in a comment line, the first new key vanishes behind it and a second, different
  key can be accepted (`HostKeys.TwoKeysAccepted`).
- For a profile stored under another name than its own, the daemon and the dialer
  can disagree about its jump hosts (`ProxyChain.ChainsDisagree`).
- COPY does not clear an existing destination: the result equals the source
  exactly when nothing at the destination survives (`WebDavCopy.CopyEqualsSourceIff`).
- A copy to a place within the source never succeeds (`CopyOrder.NeverSucceeds`), and
  to a free one it stops only at the server's limit on paths (`CopyOrder.NeverReturns`).
  A copy of something onto itself empties its files, so it is harmless exactly when
  they are empty (`WebDavCopy.EmptiedIff`). The result of a copy to a place above the
  source can depend on the order of a directory listing (`CopyOrder.OrderDecides`).
- A last position or suffix length of 2^63 or more is answered with 416, where
  section 14.1.2 of RFC 9110 has it cut at the size (`Ranges.FirstLastForm`,
  `Ranges.SuffixForm`).
- A history entry is lost when it is written between another process's read and its
  replacement of the file, and when it is written to a file that was replaced after
  it had been opened. Exactly the runs without both keep the newest entries
  (`HistoryRace.KeepsNewestIff`, `HistoryRace.LostToStale`, `HistoryRace.LostAstray`).
- A history size whose product does not fit 64 bits wraps round and may become
  negative; then only the newest entry is kept (`History.CapOverflows`).

## Model

| member | source | states |
|---|---|---|
| ExecLiveness.OutputFaithful | cmd/daemon.go:490-603 | In every state of every run, for every chunking and interleaving and with either process dying at any point, the client's stdout and stderr are prefixes of the remote's; once it has the exit code, the code is right and both are complete. |
| ExecLiveness.StdinFaithful | cmd/daemon.go:452-485 | In every state of every run the remote stdin is a prefix of the local one, the request decoder never has two readers, at most one command is started, and no leftover frame is dispatched as a request. |
| ExecLiveness.RunsAreFinite | cmd/daemon_client.go:111-141 | A run is no longer than a bound computed from the bytes left to move: neither side can loop without progress. |
| ExecLiveness.InvStep | cmd/daemon.go:536-585 | Every step keeps the whole invariant of the exchange: failures, a client that disconnects mid-command and a daemon that crashes included. |
| ExecDeadlock.Progress | cmd/daemon.go:570-585 | In every reachable state that is neither final nor the hang, a step that is no failure is enabled; the step is constructed. |
| ExecDeadlock.RunToHang | cmd/daemon.go:573-584 | If the local stdin never ends, every state in which it is still awaited can be run into the state where both sides wait. |
| ExecDeadlock.StuckIffHung | cmd/daemon.go:573-584 | After any run, nothing but a death can happen although the ends are not done, exactly when handler and client wait for each other over a silent stdin. |
| ExecDeadlock.DeadlockFreeIffStdinEnds | cmd/daemon_client.go:61-109 | No reachable state is stuck if and only if the local stdin ends. |
| ExecDeadlock.DisconnectEnds | cmd/daemon.go:544-546 | Once the client is gone, at any point and whether or not its stdin would end, the daemon's side has a bounded number of steps left and ends with handler, pump and streamers done. |
| ExecDeadlock.Completes | cmd/daemon_client.go:101-141 | With an ending stdin every maximal run terminates both ends; without refusal or death the client returns the remote exit code with all output written, even if the command stopped reading, and otherwise with all stdin delivered. |
| ExecRefusal.RefusedLeavesNothing | cmd/daemon.go:459-534 | In every run in which the profile was found changed, or the start failed, no command runs then or later and no byte or exit code gets through; a changed profile also ends the connection. |
| ExecRefusal.NoCommandUnvetted | cmd/daemon.go:459-534 | In every run a command is started only after the profile was found unchanged. |
| ExecSafety.DeliveredStep | cmd/daemon.go:90-111 | Under the locked writer no step reorders, duplicates or invents output bytes, nor drops any while both ends are open. |
| ExecSafety.FinishedStep | cmd/daemon.go:576-585 | An exit frame stays the last frame and comes after every byte of both streams. |
| ExecStdin.FedStep | cmd/daemon.go:539-569 | Every step keeps the accounting of stdin bytes between the local read, the frames in flight, the pump and the remote. |
| ExecLoops.StreamOutput | cmd/daemon.go:587-603 | Whatever the chunk sizes, the loop adds exactly the stream's bytes to the frames of its channel, nothing to the other channel, and only output frames. |
| ExecLoops.ReceiveLoop | cmd/daemon_client.go:111-141 | The loop writes exactly the payloads up to the first exit or error frame and returns what that frame says. |
| ExecLoops.PumpStdin | cmd/daemon.go:539-569 | The pump stops at the first frame that is not stdin and has written exactly the payloads before it, or a prefix when a write fails. |
| ExecLoops.Relay | cmd/daemon.go:571-585 | Streamers, exit frame and client loop in sequence reproduce the remote output and exit code for every chunking. |
| ExecLoops.RawPayload | cmd/daemon_client.go:121-127 | A payload that is not base64 is passed on as the bytes of the text. |
| Base64.RoundTrip | cmd/daemon.go:594-597 | Decoding the padded encoding of section 4 of RFC 4648 gives back any byte string. |
| Base64.EncodeGroup | cmd/daemon.go:594-597 | Three bytes become four symbols that are the same number in base 64 (section 4 of RFC 4648). |
| Base64.EncodeLast | cmd/daemon.go:594-597 | One or two last bytes are filled up with zero bits and padded. |
| Base64.Alphabet | cmd/daemon.go:594-597 | The symbols are those of table 1 of RFC 4648. |
| DaemonLifecycle.FieldsConsistent | cmd/daemon.go:427-509 | At every point between critical sections: SFTP counts as running exactly with a listener, activeConns is exactly the registered handlers, its command is non-empty exactly during exec, and keepalive is closed at most once. |
| DaemonLifecycle.IdleExitNeverLost | cmd/daemon.go:218-229 | In every run in which SFTP service ends only through unmount, stop or shutdown, a managed daemon with nothing going on has its idle timer armed. |
| DaemonLifecycle.WatchedStep | cmd/daemon.go:436-450 | Every step keeps the reason why somebody will still look whether the daemon is idle. |
| DaemonLifecycle.AttendedIff | cmd/daemon.go:696-703 | A step leaves nobody to look if and only if it cleans up a server with no connection, no re-arm, no armed timer and no callback on its way. |
| DaemonLifecycle.IdleExitLostExactly | cmd/daemon.go:218-229 | Whatever ends SFTP service: through a whole run the idle exit is kept if and only if no step is of that kind. |
| DaemonLimits.IdleExitLostWhenServerEnds | cmd/daemon.go:696-703 | A run after which the daemon is idle, unmounted, unarmed, and no step but a new connection or a revocation is enabled. |
| DaemonLimits.ForgetsIff | cmd/daemon.go:690-703 | A step takes an open listener off the record if and only if it commits a mount, or cleans up a server, while another server is open. |
| DaemonLimits.ListenersOnRecord | cmd/daemon.go:607-703 | Through a whole run every open listener is the one in the fields if and only if no step is of that kind. |
| DaemonLimits.ForgottenUntilExit | cmd/daemon.go:715-810 | A listener that neither the fields nor a handler about to unmount know is closed, in any continuation of any run, if and only if the process has exited. |
| DaemonLimits.StopEndsAll | cmd/daemon.go:233-240 | A forced stop can always be carried through to the exit of the process, which closes every listener, forgotten or not. |
| DaemonLimits.RevocationEndsAll | cmd/daemon.go:459-468 | A handler that finds its profile changed can always be followed to the exit of the process. |
| DaemonLimits.KeepaliveEndsAll | cmd/daemon.go:335-350 | So can a keepalive that finds the profile changed. |
| DaemonLimits.UnmountCloses | cmd/daemon.go:715-734 | Unmounting closes the listener on record; a managed daemon can be followed to its exit, a persistent one goes on. |
| DaemonLimits.IdleEndsAll | cmd/daemon.go:218-229 | With the timer armed, no handler and no mount, the timer can be followed to the exit. |
| DaemonLimits.TwoMountsRace | cmd/daemon.go:607-694 | A run after which SFTP counts as stopped while a server still serves on a forgotten listener. |
| DaemonObject.Daemon.Stop | cmd/daemon.go:738-784 | Stop sees exactly the handlers in exec, goes ahead exactly when forced or when there are none and no persistent mount, and when forced closes and forgets the listener. |
| DaemonObject.Daemon.BeginMount | cmd/daemon.go:607-620 | A mount is refused exactly while a listener is on record; the fields stay consistent with every handler. |
| DaemonObject.Daemon.BeginUnmount | cmd/daemon.go:715-727 | There is a listener to close exactly when SFTP counts as running. |
| DaemonObject.Daemon.LookIdle | cmd/daemon.go:219-228 | The timer callback goes ahead exactly when no handler is registered and no listener is on record, and exactly then a shutdown is asked for. |
| DaemonObject.Daemon.StopKeepalive | cmd/daemon.go:786-790 | Whichever shutdown comes first, the channel has been closed exactly once. |
| DaemonObject.Daemon.Unregister | cmd/daemon.go:440-450 | Leaving reports zero exactly when no other handler is between registering and leaving. |
| DaemonObject.Daemon.DropListener | cmd/daemon.go:801-809 | Shutdown has a listener to close exactly when SFTP counted as running, closes that one and no other, and keeps the fields consistent with every handler. |
| LockedFile.NoLostUpdates | store/store.go:259-395 | Where a failed read fails the update (store, config), for any number of processes, crashes and failures at any step: the file is always the renamed updates applied one at a time in lock order, so an unlocked reader sees only such files. |
| LockedFile.FaithfulIffNoOverwrite | internal/daemonstate/daemonstate.go:90-123 | Where it does not, the file is that throughout a run if and only if no update made without reading is renamed over a file on which it has another result. |
| LockedFile.MutualExclusion | store/store.go:259-266 | At most one process is between lock and unlock. |
| LockedFile.AcknowledgedIsCommitted | store/store.go:320-395 | As multisets, the renamed updates are the acknowledged ones, those of processes that died before reporting, and the one about to be reported. |
| LockedFile.ReuseWritesBoth | store/store.go:270-279 | A handle reused after its first save failed, while there is no file, writes both updates though only the second is reported. |
| SharedFiles.StorePhantom | store/store.go:81-191 | For the store the file is then wrong whatever the two updates are, if each can succeed. |
| SharedFiles.ConfigPhantom | internal/config.go:90-114 | For the config it is right if and only if the failed setting was a removal or has the key of the second. |
| SharedFiles.ConfigNoLostUpdates | internal/config.go:90-181 | Over all disciplined runs the config file is the renamed settings, one at a time in lock order. |
| SharedFiles.DaemonStateFaithfulIff | internal/daemonstate/daemonstate.go:90-123 | State files are the renamed updates, one at a time, throughout a run if and only if no update made on an unreadable file is renamed over entries other than its own. |
| SharedFiles.DaemonStateDropped | internal/daemonstate/daemonstate.go:90-129 | For every file with such other entries: a run in which one acknowledged update drops them all. |
| SharedFiles.SameOnEmpty | internal/daemonstate/daemonstate.go:126-151 | An update has the same result on the file as on an empty one if and only if the file has no entry but the one it is about. |
| SharedFiles.NoResurrection | internal/daemonstate/daemonstate.go:126-151 | Over any updates an entry exists exactly if the last SetEntry or DeleteEntry for it says so: messages never bring one back. |
| SharedFiles.OneUpdate | internal/daemonstate/daemonstate.go:126-151 | An update sets, rewords or deletes the entry it names and no other. |
| SharedFiles.LastUpdatesWin | internal/daemonstate/daemonstate.go:126-151 | Over any updates an entry is that of the last SetEntry, with the last message since, unless deleted since. |
| SharedFiles.EntryInFile | internal/daemonstate/daemonstate.go:108-151 | In every run without drops the file holds exactly those entries. |
| StateFiles.StateFile.With | internal/daemonstate/daemonstate.go:108-123 | The file becomes what the callback makes of the freshly read map, or stays as it was; a missing or broken file counts as empty or as the entries that parsed. |
| StateFiles.StateFile.SetMessage | internal/daemonstate/daemonstate.go:135-143 | A message changes only the message of the entry it names, if there is one, and no other entry. |
| StateFiles.Config.constructor | internal/config.go:37-68 | Opening remembers an error for anything but a missing or a good file, and then holds no keys. |
| StateFiles.Config.Set | internal/config.go:87-114 | Success is exactly one change of the file as it is now; a failure leaves the file alone; a file that does not parse, or a handle that could not load, is never written. |
| StateFiles.SetThenGet | internal/config.go:79-83 | What one handle has set, a fresh one reads back, the empty value standing for no key. |
| StateFiles.LastSettingWins | internal/config.go:105-110 | Over any sequence of updates a key has the last value set for it, and no update stores an empty value. |
| Profiles.ValidateProfileName | store/types.go:102-129 | Accepts exactly the names of 1 to 64 allowed characters without a dot at either end; otherwise points at the first bad character. |
| Profiles.NamesAreSafe | store/types.go:99-129 | An accepted name holds no separator or control character and is no dot name. |
| Profiles.PlainNamesAreValid | store/types.go:102-129 | Of the names made of letters, digits, dashes, underscores and dots, exactly those with a dot at an end are refused. |
| Profiles.Validate | store/types.go:57-87 | Accepts exactly the complete profiles and otherwise names a field that is wrong. |
| Profiles.UpdatedIff | store/store.go:81-191 | Each update has exactly one result, described entry by entry and field by field, and none exactly when it is refused. |
| Profiles.UpdatedLoadable | store/store.go:281-318 | Every accepted update leaves a table whose names pass the check that load makes. |
| Profiles.RenameBack | store/store.go:160-191 | Renaming there and back restores the whole table but for the update time. |
| CredentialStore.Store.Open | store/store.go:51-76 | On whatever a store has written, opening succeeds unless I/O fails, and finds exactly the table on disk. |
| CredentialStore.Store.Load | store/store.go:281-318 | Loading the file yields its table under the key on disk, never creates a key, and its name check never rejects. |
| CredentialStore.Store.Add | store/store.go:81-101 | The file gains exactly the profile with both stamps, every other entry the same, exactly when the profile is valid and new; otherwise it is unchanged. |
| CredentialStore.Store.Update | store/store.go:112-139 | The entry becomes the given profile, with its creation time and, unless given, its use counters kept, and no other entry changes. |
| CredentialStore.Store.Delete | store/store.go:142-156 | The named entry is no longer in the file and every other one is the same, exactly when it was there. |
| CredentialStore.Store.Rename | store/store.go:160-191 | The entry is under a free, valid name with only name and update time changed, every other one the same; renaming to itself writes nothing. |
| CredentialStore.Store.Touch | store/store.go:235-253 | The entry has one more use and its date, everything else is the same, exactly when it was there. |
| CredentialStore.Store.Save | store/store.go:320-395 | Success replaces the file by the table sealed under the key on disk; failure leaves the file as it was. |
| CredentialStore.AddThenReopen | store/store.go:51-101 | A second handle always opens what the first left, and finds the saved table. |
| Keyring.KeyStore.Get | keyring/keyring.go:77-103 | A key returned is the cached one or the one on disk; the key file is never overwritten, and never created when a store is known to exist. |
| Keyring.KeyStore.GetWithFile | keyring/keyring.go:158-185 | Mints only when there is neither a key file nor a store. |
| StoreProcesses.KeyIsStable | keyring/keyring.go:77-214 | In every run of many processes, a key file once present never changes, it holds the key that seals the store, and every cached key is that key. |
| StoreProcesses.AlwaysReopens | store/store.go:51-76 | In every reachable state a new process can open the store when the lock is free, and a lock holder can reload at once or after one key fetch. |
| StoreProcesses.MintOnlyBeforeStore | keyring/keyring.go:165-184 | A key is only ever minted under the lock and while no store exists. |
| StoreProcesses.StoreNoLostUpdates | store/store.go:81-191 | With keys included, the store on disk is the renamed updates, one at a time from the empty table. |
| ProxyChain.DaemonChain | cmd/daemon.go:384-400 | The daemon's loop yields the profiles along the walk, or its cycle or missing name. |
| ProxyChain.DialerChain | sshclient/session.go:525-545 | The dialer's loop yields the hops behind the profile, or its cycle or missing name. |
| ProxyChain.ReachedIffPath | cmd/daemon.go:384-400 | The walk succeeds exactly along a path of stored, unseen names that follows `proxy` to the empty name. |
| ProxyChain.FailureWitness | sshclient/session.go:530-541 | A failing walk has followed a path to a name that is not stored, or to one met before. |
| ProxyChain.DialerIffDaemon | sshclient/session.go:525-545 | For any stored profile the dialer succeeds exactly when the daemon does and the profile's own name does not come up behind it; the chains then match. |
| ProxyChain.ChainsAgree | cmd/daemon.go:384-400 | For a profile stored under its own name both resolvers agree in every outcome. |
| ProxyChain.ChainsDisagree | sshclient/session.go:525-545 | A store in which one resolver succeeds and the other reports a cycle. |
| ProxyChain.EnsureLive | cmd/daemon.go:406-425 | Accepts exactly when the fresh chain has the length of the snapshot and the same host, port, user, authentication, credentials and proxy hop by hop. |
| ProxyChain.LiveMeansSameChain | cmd/shellquote.go:59-64 | A chain is accepted if and only if it visits the same store names as at daemon start and every entry has the same host, port, user, authentication, credentials and proxy; the dialer then takes the same hops. |
| JumpDial.DialViaProxyChain | sshclient/session.go:470-522 | Succeeds if and only if nothing has failed. On failure every client and tunnel opened is closed again; on success the session owns exactly what was opened, in opening order, each hop logged in where the chain says. |
| JumpDial.DialViaProxy | sshclient/session.go:393-451 | The last leg adds exactly the client of the target, unless something has failed; then the network is as before. |
| JumpDial.CloseHops | sshclient/session.go:565-572 | Closes exactly the given hops, never one that still carries another. |
| JumpDial.CloseSession | sshclient/session.go:575-585 | Closes the target and then every hop behind it, nothing else. |
| JumpDial.DialAndClose | sshclient/session.go:470-585 | Dialing and closing leaves the network as it was. |
| HostKeys.FirstUseAgreement | sshclient/session.go:674-761 | In every run of any number of processes, with writes stopping anywhere, known_hosts only grows, no address ever gets two keys accepted, and an accepted key is in the file or the file is unreadable. |
| HostKeys.CheckIff | sshclient/session.go:712-731 | A key is known exactly when the first line of its address and kind has it, and a mismatch exactly when the address is listed otherwise. |
| HostKeys.KnownIffListed | sshclient/session.go:712-731 | With one key per address, a key is known exactly when it is on a line, and another one for that address is a mismatch. |
| HostKeys.Answered | sshclient/session.go:714-736 | Every connection to a listed address, or in strict mode, is accepted exactly when its key is known, and leaves the file alone. |
| HostKeys.FirstUseThenAgain | sshclient/session.go:674-761 | After a first use on a file that ends with a newline, the same key is accepted again in either mode, another one is refused, and neither changes the file. |
| HostKeys.AgreesIffNothingPastKey | sshclient/session.go:744-750 | First use agrees in all runs if and only if the file one starts from does not end without newline past a key, or in a comment. |
| HostKeys.TwoKeysAccepted | sshclient/session.go:744-750 | From such a file, for every unlisted address and two keys: a run that accepts both. |
| HostKeys.PersistedIffNothingGlued | sshclient/session.go:744-758 | Through a whole run every accepted key is readable if and only if nobody accepts after an append to a line without newline. |
| HostKeys.LostNewline | sshclient/session.go:748-751 | A run in which a write loses its newline and the next accepted key is in no readable line. |
| HostKeys.StrictNeverGrows | sshclient/session.go:720-735 | If all processes are strict the file never changes, not even its end. |
| HostKeys.TornFailsClosed | sshclient/session.go:689-716 | Once the last line is torn and nobody is inside, nobody accepts anything any more. |
| WebDavCopy.CopyRecursive | webdav/webdav.go:464-502 | Terminates for all paths; nothing is removed, changed in kind, or changed outside the destination, success or not; success means that the destination was not within the source and that every source path has its place there; and unless the copy writes into what it still has to read, it succeeds if and only if the tree allows it and no call fails, and the tree is then exactly the old one with the source laid over the destination. |
| WebDavCopy.FreePossible | webdav/webdav.go:464-502 | Onto a free place in a directory the tree allows every copy within the server's limit on paths. |
| WebDavCopy.ChildPossibleIff | webdav/webdav.go:491-500 | Whether a child can be copied does not depend on what has been copied before. |
| WebDavCopy.CopyEqualsSourceIff | webdav/webdav.go:486-501 | After a copy the destination equals the source if and only if no other node is left over there and, where both are the same, the files were empty. |
| WebDavCopy.EmptiedIff | webdav/webdav.go:470-482 | A copy onto itself leaves every file empty, so it changes nothing if and only if all files were empty. |
| WebDavCopy.FreeIsExact | webdav/webdav.go:451-462 | A free destination has nothing left over. |
| WebDavCopy.HandleMove | webdav/webdav.go:407-433 | For all paths: both ways of moving remove the source and nothing else, and relocate it, never to a place within itself; created is answered if and only if no call fails and the tree allows the rename, or the copy where devices differ; beside the source, the result is that of a rename exactly when nothing at the destination survives; each failure says what may have changed. |
| WebDavCopy.MoveIsRename | webdav/webdav.go:417-427 | Copying and deleting gives the tree of a rename if and only if nothing at the destination survives the copy. |
| WebDavCopy.HandleCopy | webdav/webdav.go:451-462 | For all paths: created means that everything is copied, to a place not within the source, and is answered if and only if the tree allows it and no call fails; nothing outside the destination changes in any case. |
| CopyOrder.NeverSucceeds | webdav/webdav.go:485-501 | With all calls succeeding that can, for any place within the source, free or not, and any order of the listings: within no number of nested calls does the copy return success. |
| CopyOrder.NeverReturns | webdav/webdav.go:485-501 | A directory copied to a free place within itself: without a limit on paths, within no number of nested calls does the copy return at all. |
| CopyOrder.ReturnsIffNoRoom | webdav/webdav.go:485-501 | For a free place within the source directory the copy returns if and only if the place cannot be created. |
| CopyOrder.FreeSucceeds | webdav/webdav.go:464-502 | Beside the source, onto a free place, every such copy that returns returns success. |
| CopyOrder.OrderDecides | webdav/webdav.go:491-500 | Trees and listings for which the same copy to a place above the source ends in two different ways. |
| CopyOrder.ClearNotNecessary | webdav/webdav.go:485-501 | The guard under which the result is promised is sufficient only: a tree outside it for which the result is the same. |
| Ranges.ParseRange | webdav/webdav.go:296-337 | Every accepted range lies within the file, for every header and size. |
| Ranges.FirstLastForm | webdav/webdav.go:320-336 | The first-last form is that of section 14.1.2 of RFC 9110 if and only if the last position fits 64 bits or the range is unsatisfiable anyway. |
| Ranges.OpenForm | webdav/webdav.go:328-330 | The open form is everything from the first position, for any number. |
| Ranges.SuffixForm | webdav/webdav.go:305-315 | The suffix form is that of the RFC if and only if the length fits 64 bits or the file is empty. |
| Ranges.PaddedForm | webdav/webdav.go:299-325 | White space around the range and its numbers is ignored. |
| Ranges.RangeRoundTrip | webdav/webdav.go:296-337 | Printing a valid range and parsing it gives it back. |
| Ranges.HandleGet | webdav/webdav.go:226-292 | A partial answer is exactly the announced slice, given exactly when the range is accepted and the seek works; 416 exactly for a byte-range header that does not parse to a range; the whole file exactly without such a header. |
| ShellQuote.Join | cmd/shellquote.go:27-33 | The loop over arguments and spaces yields the quoted vector. |
| ShellQuote.Quote | cmd/shellquote.go:36-55 | The scan with its flag yields the bare word exactly for non-empty safe arguments, the quoted one otherwise. |
| ShellQuote.SplitJoined | cmd/shellquote.go:27-55 | Splitting and quote removal as in XCU sections 2.2 and 2.3 give back exactly the arguments, with nothing special outside quotes. |
| ShellQuote.JoinedInjective | cmd/shellquote.go:27-33 | Different argument vectors give different commands. |
| ShellQuote.BuildRemoteCommand | cmd/shellquote.go:15-24 | Two or more arguments reach the remote shell as exactly those words; one is passed as it is; none leaves the command string. |
| Sorting.SortStrings | internal/option.go:171-177 | The in-place insertion sort leaves an ordered permutation. |
| Sorting.LessIff | internal/option.go:171-177 | The order is the lexicographic one: a proper beginning, or the smaller character at the first difference. |
| Sorting.OneList | internal/option.go:135-146 | A set of keys has one increasing listing: the output order is canonical. |
| SetEnv.MergeSetEnv | internal/option.go:111-147 | The loops compute the canonical listing of the updated environment. |
| SetEnv.ParseEnvPairs | internal/option.go:149-169 | The loop computes the environment the list stands for, the last pair winning. |
| SetEnv.ParsePairMeaning | internal/option.go:114-125 | An element counts exactly when something but white space stands before its first equals sign; key and value are the two sides, trimmed. |
| SetEnv.PaddedPair | internal/option.go:154-166 | White space around keys and values is ignored. |
| SetEnv.PairsOf | internal/option.go:113-114 | The pairs of a list are those of its comma-separated elements, in order. |
| SetEnv.PutAt | internal/option.go:149-169 | In a list read as an environment the last pair for a key decides. |
| SetEnv.UpdateMeaning | internal/option.go:126-131 | In an update the last pair for a key decides: empty removes, anything else sets, and other keys stay. |
| SetEnv.MergeMeaning | internal/option.go:111-147 | Parsing the merged list gives exactly the updated environment, each variable once in key order. |
| SetEnv.MergeCompose | internal/option.go:111-147 | Two merges are one merge of the concatenated update lists, for all strings. |
| SetEnv.MergeIdempotent | internal/option.go:111-147 | Merging the same update twice changes nothing. |
| SetEnv.Session.ApplySessionEnv | sshclient/session.go:363-381 | One environment request per well-formed pair, in list order; with MergeMeaning these are the variables of the merged map. |
| Options.ValidateOptionKeys | internal/option.go:57-70 | No error exactly when all keys are allowed; otherwise one of the right kind for every key that is not. |
| Options.WhitelistIs | internal/option.go:36-51 | Exactly the eight documented options may be set on a profile; allowing other than loopback binds is not one of them. |
| Options.ProfileOptions.MergeOptions | internal/option.go:91-106 | Whatever order the map is visited in: keys not requested stay, requested ones are replaced, and SetEnv holds exactly the updated environment or goes when that is empty. |
| Options.ProfileOptions.ApplyOptionMap | internal/option.go:76-85 | The whole request is applied, or nothing of it. |
| Options.OnlyWhitelisted | internal/option.go:57-106 | Over any sequence of edits, accepted or refused, no other key gets in. |
| Options.EditIdempotent | internal/option.go:91-106 | Repeating an edit changes nothing. |
| History.SplitLines | internal/history.go:291-304 | The scan yields the lines, the last one also without its newline. |
| History.HistoryFile.TrimBySize | internal/history.go:202-264 | The file becomes its longest fitting tail, or is left alone when rewriting fails or nothing has to go; an empty file under a negative cap slices out of range. |
| History.HistoryFile.Append | internal/history.go:159-198 | The entry is appended, then trimmed if the rewrite succeeds; a failing open, write or close is reported and leaves what was written. |
| HistoryRace.KeepsNewestIff | internal/history.go:182-263 | With any number of processes the file holds the newest entries throughout a run if and only if none replaces it after another has written since its read, and none writes to a file replaced since it opened it. |
| HistoryRace.WhatIsLost | internal/history.go:187-263 | A stale replacement drops every entry written after the read; an entry written astray is not in the file. |
| HistoryRace.LostToStale | internal/history.go:202-263 | A run that loses an entry to a stale replacement, with no write astray. |
| HistoryRace.LostAstray | internal/history.go:182-187 | A run that loses an entry written astray, with no stale replacement. |
| History.TrimIsLongest | internal/history.go:212-231 | What is kept is a tail, fits the cap or is one line, and no longer tail fits. |
| History.LinesUnterminated | internal/history.go:291-304 | A last line without newline is a line of its own. |
| History.TrimFileTwice | internal/history.go:202-264 | Trimming any file again changes nothing. |
| History.TrimSnoc | internal/history.go:196-197 | Trimming before an append makes no difference to trimming after it. |
| History.RunIsTail | internal/history.go:159-264 | After any appends the file is a tail of all entries, holds the newest, and is within the cap after a successful trim unless one line is left. |
| History.TrimmingCommutes | internal/history.go:159-264 | Under one cap, whatever trims failed on the way, a successful one leaves the trim of the whole history. |
| History.SizeWithUnit | internal/history.go:131-154 | A number with k, m or g means that many times 1024, 1024^2 or 1024^3 bytes if and only if the product fits 64 bits. |
| History.PlainSize | internal/history.go:149-153 | A number without unit is itself if it is positive and fits 64 bits, and the default otherwise. |
| History.PaddedSize | internal/history.go:132-149 | White space around the number and the unit is ignored. |
| History.NoSize | internal/history.go:133-152 | What does not begin with a number stands for the default. |
| History.CapOverflows | internal/history.go:131-154 | The parsed size is negative exactly when bit 63 of the product is set, and then one entry is kept. |

## Left out

- WebDavCopy.CopyRecursive: within the source it ends because the server refuses directories on paths beyond some length, whatever that is; where the copy changes what it still has to read, it promises which paths exist but not their content, which the listing order decides.
- HostKeys.FirstUseAgreement: requires that the file starts with at most one key per address; lines for several key types, revocations, wildcards and hashed names are the library's business. That the library rejects a file with one bad line and ignores text after a key is taken from its documented format.
- LockedFile.NoLostUpdates: requires for store and config that a handle whose first save failed is dropped, as the command line does; `SharedFiles.StorePhantom` and `SharedFiles.ConfigPhantom` say what happens otherwise.
- LockedFile.FaithfulIffNoOverwrite: a state file that parses in part yields its good entries in the code (see `StateFiles.StateFile.With`); among processes, an unreadable file yields none.
- JumpDial.DialViaProxyChain: dials, tunnels and handshakes succeed or fail arbitrarily; timeouts and cancellation are not modelled.
- HistoryRace.KeepsNewestIff: an entry is written at once or not at all, as a short write in append mode is; partly written lines are modelled for one process only, and clearing the history is not.
- ExecLiveness.OutputFaithful: a frame is written whole or not at all; a partial write on a breaking connection is not modelled, nor is the 200 ms the client waits for its stdin goroutine, nor stdout of the client failing. The remote output is taken to end.
- ExecLoops.Relay: runs the loops one after the other; their interleavings are runs of the step system, whose steps are the loops cut at every action another goroutine can observe.
- A terminal as local stdin is the case of an empty stdin that ends.
- The config object's in-process mutex and the store's are taken for granted; objects are used by one goroutine at a time.
- AES-GCM is ideal: a file opens under the key that sealed it and no other. PBKDF2, hex, random keys and JSON are identities or parameters.
- Key backends other than the key file, their probing and the stale `storeExists` flag they can meet.
- `CopyRecursive` and `CopyDirectory` are one function in the code, as are `Rename` and `RenameLocked`, and the tunnel and handshake of `TunnelTo` stand twice.
- Permissions, fsync and directory creation: one flag per operation that can fail.
- SSH handshakes, authentication, terminals, signals, environment acceptance by the server.
- Idle time and clocks: a timer that is armed may fire at any moment.
- PID files, process identity, socket set-up and peer authorisation.
- SFTP request forwarding and attribute parsing, export and import of stores.
- The pair of option string printer and parser for the editor, host name sanitising: they are no inverses.
- WebDAV: symbolic links, the Overwrite header, a missing or escaped Destination, locks, properties, and other clients changing the tree during a copy.
- Characters are code points; the byte length of a history line is its number of characters, so non-ASCII text counts less than in the code.
- Shell reserved words and aliases in command position, and field splitting under a changed IFS.
- Privacy scrubbing, translations, completion, panels and prompts; Windows variants.
