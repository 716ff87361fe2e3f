# Recursive directory layer of sftp-provider, in Dafny

sftp-provider is a small Java library that puts one `FileTransfer` interface over two
back ends: SFTP (through the JSch library) and FTP (through Apache Commons Net). This
project models:

- the directory operations of both transfer classes:
  - `createDirectories` walks the accumulated `/`-prefixes of a path, entering or making each one;
  - `deleteDirectory` deletes depth first;
  - `exists`, `delete` and `listFiles`;
- the factory that picks a transfer from a case-insensitive protocol tag;
- the JSch connection's session and channel state.

The remote side is a tree: a map from keys (sequences of entry names) to `Dir` or
`File`, with the root always a directory. A server resolves a path string against the
client's working directory. A leading `/` makes the path absolute, empty pieces are
skipped, `.` stays put and `..` climbs. Each library stand-in is a class over that tree
with a working directory and a ghost log of the requests it was sent:

- `Jsch.SftpChannel`: `cd`, `mkdir`, `rm`, `rmdir`, `ls`, `lstat`;
- `CommonsNet.FtpClient`: CWD, MKD, DELE, RMD, LIST.

The logs hold the requests that change the working directory or the tree, and the SFTP
`ls`, whose refusal can end a delete.

The stand-ins' contracts state when a request succeeds. Refusals are injected as data:

- an SFTP channel carries a map from keys to the status code every request on that key fails with;
- an FTP client carries a set of keys on which every request is refused.

Each `createDirectories` is specified by a function, `CreateWalk`. It gives the tree,
the working directory and the sequence of visits (SFTP) or probes (FTP) that the walk
produces from a starting state. The loop of each method is proved to do exactly that
walk, and lemmas prove what the walk promises. `deleteDirectory` is a recursive method
whose contract is the predicate `Deletion.Deleted`:

- the tree only shrinks;
- nothing outside the directory changes;
- on success the whole subtree is gone, and the last request removed the directory itself;
- a directory with no refused path at or below it is always deleted;
- every request sent listed or removed the directory or a path below it;
- a failure stopped at the request sent last, which the server refused, and the failure
  raised names that request: for FTP the IOException naming its path, for SFTP one
  wrapper per directory down to it around the status code.

## Model

| member | source | states |
|---|---|---|
| Paths.SplitThenSkipEmpty | src/main/java/com/murilonerdx/transfer/SftpFileTransfer.java:75-79 | `split("/")` followed by skipping empty pieces leaves exactly the path's segments: the trailing pieces that `split` drops are all empty, so nothing is lost |
| Paths.AccumulateRoundTrip | src/main/java/com/murilonerdx/transfer/FtpFileTransfer.java:60-64 | the accumulated prefix `"/"+seg+…` is absolute and splits back into exactly the segments it was built from |
| Remote.PrefixAt | src/main/java/com/murilonerdx/transfer/SftpFileTransfer.java:80 | each probed prefix extends the previous one by `"/"` and its segment, is absolute, and names the same location from any working directory, so a relative input is probed as absolute paths |
| Remote.LastPrefix | src/main/java/com/murilonerdx/transfer/SftpFileTransfer.java:78-80 | the last accumulated prefix of an absolute path names the location of the path itself |
| SftpTransfer.CreateWalkPaths | src/main/java/com/murilonerdx/transfer/SftpFileTransfer.java:78-82 | the j-th visit of the SFTP walk is to the j-th accumulated prefix: the non-empty segments, in order |
| SftpTransfer.CreateWalkStopsLast | src/main/java/com/murilonerdx/transfer/SftpFileTransfer.java:81-91 | only the last visit can be refused, and a walk with no refusal visits every prefix |
| SftpTransfer.CreateWalkGoesOn | src/main/java/com/murilonerdx/transfer/SftpFileTransfer.java:81-86 | a visit that goes through is a `mkdir` exactly when `cd` was refused; it makes only a missing prefix whose parent accepts it; an entered prefix is an unrefused directory; the walk then continues inside that prefix |
| SftpTransfer.CreateWalkStops | src/main/java/com/murilonerdx/transfer/SftpFileTransfer.java:87-88 | a refused visit ends the walk with the working directory unchanged; a prefix made before the second `cd` failed stays made |
| SftpTransfer.CreateWalkKeeps | src/main/java/com/murilonerdx/transfer/SftpFileTransfer.java:81-89 | the walk never removes or changes an existing entry |
| SftpTransfer.CreateWalkMakesNew | src/main/java/com/murilonerdx/transfer/SftpFileTransfer.java:84-85 | every visit that issued a successful `mkdir` made a directory that was not there before |
| SftpTransfer.CreateWalkAddsOnlyMade | src/main/java/com/murilonerdx/transfer/SftpFileTransfer.java:84-85 | every entry the walk adds is a directory, and it is the prefix of a visit that made it |
| SftpTransfer.CreateWalkSucceeds | src/main/java/com/murilonerdx/transfer/SftpFileTransfer.java:78-91 | after a walk with no refusal, every prefix is an unrefused directory and the working directory is the last prefix |
| SftpTransfer.CreateWalkOnExisting | src/main/java/com/murilonerdx/transfer/SftpFileTransfer.java:81-82 | on a tree where every prefix is already a directory, the walk only enters: each visit is a plain `cd`, nothing is created, and the working directory ends at the last prefix |
| SftpTransfer.CreateTwice | src/main/java/com/murilonerdx/transfer/SftpFileTransfer.java:72-95 | repeating a successful `createDirectories` succeeds, issues no `mkdir` and leaves the tree and the working directory as they were |
| SftpTransfer.PassedAllDone | src/main/java/com/murilonerdx/transfer/SftpFileTransfer.java:87-93 | a walk that reports nothing was refused nowhere |
| SftpTransfer.CreatedThenExists | src/main/java/com/murilonerdx/transfer/SftpFileTransfer.java:72-95 | after a successful `createDirectories` of an absolute path, `lstat` on that path succeeds |
| SftpTransfer.VisitPrefix | src/main/java/com/murilonerdx/transfer/SftpFileTransfer.java:81-90 | one prefix: `cd`; on "no such file", `mkdir` and `cd` again; the tree, the working directory and the requests sent are those of the visit the walk describes |
| SftpTransfer.CreatePiece | src/main/java/com/murilonerdx/transfer/SftpFileTransfer.java:79-90 | one piece of the split path: an empty one changes nothing; any other extends the path by `"/"` and that piece and visits it; a refusal ends the walk and its code is the one that escapes |
| SftpTransfer.StepEffect | src/main/java/com/murilonerdx/transfer/SftpFileTransfer.java:80-90 | the visit of the next prefix, done as the walk describes, either leaves the loop at the next piece with the walk resumable from there, or ends the walk with the requests sent being all of it |
| SftpTransfer.CreateLoop | src/main/java/com/murilonerdx/transfer/SftpFileTransfer.java:75-91 | the loop reads the split pieces in order, skips the empty ones and does exactly the walk: the same tree, working directory and requests; the code it stops on is the one that escapes |
| SftpTransfer.CreateAlong | src/main/java/com/murilonerdx/transfer/SftpFileTransfer.java:75-94 | `createDirectories` on a connected channel ends as the walk of the path's prefixes does; a refusal is raised as the "create" failure naming the whole `remotePath`, with the refused status code as its cause |
| SftpTransfer.SftpFileTransfer.constructor | src/main/java/com/murilonerdx/transfer/SftpFileTransfer.java:20-23 | keeps the connection it is given |
| SftpTransfer.SftpFileTransfer.Open | src/main/java/com/murilonerdx/transfer/SftpFileTransfer.java:20-23 | the constructor connects first: the transfer is built exactly when `connect` succeeds, and then the connection hands out a live channel; a failed connect surfaces as the wrapped JSch failure |
| SftpTransfer.SftpFileTransfer.CreateDirectories | src/main/java/com/murilonerdx/transfer/SftpFileTransfer.java:72-95 | without a live channel, the "not connected" failure and no change; otherwise the channel ends as the walk does and the outcome is the walk's |
| SftpTransfer.SftpFileTransfer.DeleteDirectory | src/main/java/com/murilonerdx/transfer/SftpFileTransfer.java:97-119 | without a live channel, "not connected"; otherwise the working directory is kept and the delete is `Deleted`: the tree only shrinks, nothing outside `remoteDir` goes, success means the subtree is gone with `rmdir remoteDir` last, a healthy directory always succeeds, and only listings and removals at or below `remoteDir` are sent; a failure is `RefusedLast`: the last request sent (`ls`, `rm` or `rmdir`) is one the server refuses, and the failure is one delete wrapper per directory from `remoteDir` down to the one that sent it, around that refusal's status code |
| SftpTransfer.SftpFileTransfer.ClearEntries | src/main/java/com/murilonerdx/transfer/SftpFileTransfer.java:103-114 | the loop over the listing skips `.` and `..` and handles each entry in order; when it gets through, every listed child's subtree is gone and nothing else changed; when it fails, it stopped at the first refused request, sent last, and the cause leads down to it (`StoppedAt`) |
| SftpTransfer.SftpFileTransfer.ClearEntry | src/main/java/com/murilonerdx/transfer/SftpFileTransfer.java:104-113 | handling one more entry of the listing keeps the loop's state: when it goes through, that entry's subtree is gone as well, and still nothing outside the listed children went; when it fails, the refused request is the last one sent (`StoppedAt`) |
| SftpTransfer.SftpFileTransfer.DeleteEntry | src/main/java/com/murilonerdx/transfer/SftpFileTransfer.java:108-113 | one entry at `remoteDir + "/" + name`: a directory is deleted recursively and a file is removed with `rm`; the tree only shrinks, nothing outside the child goes, success means the child's subtree is gone, an unrefused entry of the kind listed always goes; a failure is `CauseRefusedLast`: the refused `rm` itself with its code, or the child's own delete failure, for the request sent last |
| SftpTransfer.SftpFileTransfer.Exists | src/main/java/com/murilonerdx/transfer/SftpFileTransfer.java:121-133 | `true` exactly when `lstat` succeeds, `false` exactly when it is refused with "no such file", and any other refusal is raised with its own status code; on an unrefused path, whether it is present |
| SftpTransfer.SftpFileTransfer.ListFiles | src/main/java/com/murilonerdx/transfer/SftpFileTransfer.java:55-69 | the names `ls` reports, in order and unfiltered: `.`, `..` and each child of a directory once, or the file's own name; a server refusal is wrapped in a RuntimeException, and a missing channel in the listing failure; only the `ls` request is added, the tree and the working directory stay as they were |
| SftpTransfer.SftpFileTransfer.Delete | src/main/java/com/murilonerdx/transfer/SftpFileTransfer.java:50-53 | never fails, and changes nothing |
| SftpTransfer.SftpFileTransfer.Disconnect | src/main/java/com/murilonerdx/transfer/SftpFileTransfer.java:45-48 | passes on to the connection: afterwards no channel is handed out, and the remote tree is untouched |
| SftpTransfer.WrapCause | src/main/java/com/murilonerdx/transfer/SftpFileTransfer.java:116-117 | the cause of a refusal below `remoteDir`, wrapped with the delete message naming `remoteDir`, is the delete failure of `remoteDir` for that same refused request |
| SftpTransfer.ChildCause | src/main/java/com/murilonerdx/transfer/SftpFileTransfer.java:108-110 | the delete failure of the recursive call on `remoteDir + "/" + name` is, for the same refused request, a cause one level below `remoteDir` |
| SftpTransfer.RmRefusedCause | src/main/java/com/murilonerdx/transfer/SftpFileTransfer.java:108-112 | an `rm` the server refuses on an entry of `remoteDir` is, as the request sent last, the cause of `remoteDir`'s failure with its status code |
| SftpTransfer.ListRefusedEffect | src/main/java/com/murilonerdx/transfer/SftpFileTransfer.java:102 | a refused `ls` removes nothing, is the last request, and surfaces as the delete failure naming `remoteDir` around the refusal's code |
| SftpTransfer.RmdirEffect | src/main/java/com/murilonerdx/transfer/SftpFileTransfer.java:115-117 | once every entry is gone, `rmdir remoteDir` completes the delete when accepted, and otherwise is the last request, refused, and surfaces as the delete failure naming `remoteDir` around the refusal's code |
| FtpTransfer.CreateWalkPaths | src/main/java/com/murilonerdx/transfer/FtpFileTransfer.java:60-65 | the j-th probe of the FTP walk is of the j-th accumulated prefix: the non-empty segments, in order |
| FtpTransfer.CreateWalkStopsLast | src/main/java/com/murilonerdx/transfer/FtpFileTransfer.java:65-69 | only the last probe can be refused, and a walk with no refusal probes every prefix |
| FtpTransfer.CreateWalkGoesOn | src/main/java/com/murilonerdx/transfer/FtpFileTransfer.java:65-67 | a probe that goes through either had CWD accepted (nothing made, the prefix entered) or had CWD refused and MKD accepted (the prefix made but not entered) |
| FtpTransfer.CreateWalkStops | src/main/java/com/murilonerdx/transfer/FtpFileTransfer.java:67-68 | a prefix that can be neither entered nor made ends the walk with the tree and the working directory as they were |
| FtpTransfer.CreateWalkKeeps | src/main/java/com/murilonerdx/transfer/FtpFileTransfer.java:62-71 | the walk never removes or changes an existing entry |
| FtpTransfer.CreateWalkMakesNew | src/main/java/com/murilonerdx/transfer/FtpFileTransfer.java:66 | every prefix made by MKD was not there before and is a directory afterwards |
| FtpTransfer.CreateWalkAddsOnlyMade | src/main/java/com/murilonerdx/transfer/FtpFileTransfer.java:66 | every entry the walk adds is a directory, and it is the prefix of a probe that made it |
| FtpTransfer.CreateWalkSucceeds | src/main/java/com/murilonerdx/transfer/FtpFileTransfer.java:62-71 | after a walk with no refusal, every prefix is a directory the client may enter |
| FtpTransfer.CreateWalkCwd | src/main/java/com/murilonerdx/transfer/FtpFileTransfer.java:65-66 | the working directory ends at the last prefix that was entered, or where it started if none was; a freshly made prefix is never entered |
| FtpTransfer.CreateWalkOnExisting | src/main/java/com/murilonerdx/transfer/FtpFileTransfer.java:65 | on a tree where every prefix can already be entered, each probe is a plain CWD, nothing is made, and the working directory ends at the last prefix |
| FtpTransfer.CreateTwice | src/main/java/com/murilonerdx/transfer/FtpFileTransfer.java:59-72 | repeating a successful `createDirectories` succeeds, and every probe is a plain CWD: nothing is made and the tree is unchanged |
| FtpTransfer.PassedNoneRefused | src/main/java/com/murilonerdx/transfer/FtpFileTransfer.java:67-69 | a walk that reports nothing was refused nowhere |
| FtpTransfer.CreatedThenEnterable | src/main/java/com/murilonerdx/transfer/FtpFileTransfer.java:59-72 | after a successful `createDirectories` of an absolute path, CWD into that path is accepted, wherever the walk left the working directory |
| FtpTransfer.CreateLoop | src/main/java/com/murilonerdx/transfer/FtpFileTransfer.java:60-71 | the loop reads the split pieces in order, skips the empty ones and does exactly the walk: the same tree, working directory and requests; it fails with the IOException naming the prefix it stopped on |
| FtpTransfer.FtpFileTransfer.constructor | src/main/java/com/murilonerdx/transfer/FtpFileTransfer.java:21-23 | takes the connection's client; nothing is connected |
| FtpTransfer.FtpFileTransfer.CreateDirectories | src/main/java/com/murilonerdx/transfer/FtpFileTransfer.java:59-72 | the client ends as the walk of the path's prefixes does, and the outcome is the walk's |
| FtpTransfer.FtpFileTransfer.DeleteDirectory | src/main/java/com/murilonerdx/transfer/FtpFileTransfer.java:75-96 | the working directory is kept and the delete is `Deleted`, as for SFTP; a failure is `RefusedLast`: the last request sent is a DELE or RMD the server refuses, and the failure is exactly the IOException of that request's kind naming its path, at or below `remoteDir` (`DeleteFailure`), passed up unwrapped |
| FtpTransfer.FtpFileTransfer.ClearEntries | src/main/java/com/murilonerdx/transfer/FtpFileTransfer.java:77-91 | the loop over the listing skips `.` and `..` and handles each entry in order; when it gets through, every listed child's subtree is gone and nothing else changed; when it fails, the failure is the IOException of the refused request it sent last (`RefusedLast`) |
| FtpTransfer.FtpFileTransfer.ClearEntry | src/main/java/com/murilonerdx/transfer/FtpFileTransfer.java:78-90 | handling one more entry of the listing keeps the loop's state: when it goes through, that entry's subtree is gone as well, and still nothing outside the listed children went; when it fails, the failure is the IOException of the refused request it sent last |
| FtpTransfer.FtpFileTransfer.DeleteEntry | src/main/java/com/murilonerdx/transfer/FtpFileTransfer.java:82-90 | one entry at `remoteDir + "/" + name`: a directory is deleted recursively; a file is removed with DELE; the tree only shrinks, nothing outside the child goes, an unrefused entry of the kind listed always goes; a failure is the IOException of the refused DELE or RMD sent last, naming its path (`RefusedLast`) |
| FtpTransfer.FtpFileTransfer.Exists | src/main/java/com/murilonerdx/transfer/FtpFileTransfer.java:99-102 | true exactly when the listing is non-empty: the path is present and not refused, and it is a file, or the server lists `.` and `..`, or it has an entry below it |
| FtpTransfer.FtpFileTransfer.ListFiles | src/main/java/com/murilonerdx/transfer/FtpFileTransfer.java:26-31 | one name per listed entry, in listing order and unfiltered: the dots (when the server shows them) and each child of a directory, the name of a file, and nothing for a missing or refused path |
| FtpTransfer.FtpFileTransfer.Delete | src/main/java/com/murilonerdx/transfer/FtpFileTransfer.java:53-56 | sends DELE and always reports success; the file is gone exactly when the server accepted the request |
| FtpTransfer.EmptyListing | src/main/java/com/murilonerdx/transfer/FtpFileTransfer.java:100-101 | a directory listed without `.` and `..` lists as empty exactly when nothing is below it |
| FtpTransfer.ChildFailure | src/main/java/com/murilonerdx/transfer/FtpFileTransfer.java:84 | the failure of the recursive call on `remoteDir + "/" + name` is a failure below `remoteDir` |
| Deletion.ListingEntry | src/main/java/com/murilonerdx/transfer/SftpFileTransfer.java:103-109 | a listed entry other than `.` and `..` is a proper name; in the listing of a directory it names a child, with that child's kind, and no other entry has the same name |
| Deletion.StoppedAtEntry | src/main/java/com/murilonerdx/transfer/SftpFileTransfer.java:110-117 | a delete that stops at an entry keeps what the entries before it removed, and counts as a delete that did not go through |
| Deletion.RemovedLast | src/main/java/com/murilonerdx/transfer/FtpFileTransfer.java:92-95 | once every entry is handled, the removal of `remoteDir` decides: accepted, the subtree is gone; a healthy directory is empty by then, so the removal is accepted |
| Factory.Create | src/main/java/com/murilonerdx/factory/FileTransferFactory.java:12-22 | every failure inside `create` leaves as the FileTransferException with the factory's message |
| Factory.CreateFtp | src/main/java/com/murilonerdx/factory/FileTransferFactory.java:14-15 | "ftp" in any letter case gives the FTP transfer exactly for an FtpConnection, whatever `connect` would do, because no connect happens; an SFTP connection fails the cast and that failure is wrapped |
| Factory.CreateSftp | src/main/java/com/murilonerdx/factory/FileTransferFactory.java:14-21 | "sftp" in any letter case gives the SFTP transfer exactly when a connection is there and its `connect` succeeds; a failed connect is the wrapped cause |
| Factory.CreateUnsupported | src/main/java/com/murilonerdx/factory/FileTransferFactory.java:17-20 | any other tag fails as unsupported, naming the tag as it was given, wrapped |
| Factory.CreateIgnoresCase | src/main/java/com/murilonerdx/factory/FileTransferFactory.java:14 | tags that lower-case alike pick the same transfer |
| SftpConnection.JschSftpConnection.constructor | src/main/java/com/murilonerdx/connection/JschSftpConnection.java:16-21 | stores the endpoint only: no session, no channel, so `getChannel` refuses |
| SftpConnection.JschSftpConnection.Connect | src/main/java/com/murilonerdx/connection/JschSftpConnection.java:23-39 | succeeds exactly when no JSch step fails, and then a fresh connected channel over the server's tree is live; a failing step is wrapped as the connect failure, the channel field is left as it was, and the session stays assigned when it was obtained |
| SftpConnection.JschSftpConnection.Disconnect | src/main/java/com/murilonerdx/connection/JschSftpConnection.java:41-49 | never fails; it closes the channel and then the session, each only when it is there and connected, so a second call closes nothing; afterwards no channel is handed out |
| SftpConnection.JschSftpConnection.GetChannel | src/main/java/com/murilonerdx/connection/JschSftpConnection.java:51-57 | hands out the stored channel exactly when it is there and connected, and the "not connected" failure otherwise |
| SftpConnection.ConnectionLifecycle | src/main/java/com/murilonerdx/connection/JschSftpConnection.java:16-57 | a new connection, to any endpoint, refuses `getChannel`; after `connect` it hands out the channel just opened; after `disconnect`, it refuses again |
| SftpConnection.FailedConnectLeavesNoChannel | src/main/java/com/murilonerdx/connection/JschSftpConnection.java:27-37 | on a new connection, to any endpoint, a `connect` that fails at any step leaves `getChannel` refusing; on a connection that was live the old channel stays (`Connect`) |

## Left out

- `upload` and `download` in both transfer classes: they copy streams between the local file system and the remote library.
- `FtpFileTransfer.disconnect` (logout, then disconnect): it only talks to Commons Net, with nothing in the remote tree to state.
- The FTP connection's connect, login and mode setting: only the client it hands over is modelled (`FtpTransfer.FtpConnection`).
- The reactive and synchronous clients, the configuration builders, and the `FileTransfer`, `GateConnection` and `SftpConnection` interfaces.
- The SSH transport, the SFTP and FTP wire protocols, host-key checking, timeouts and concurrency. JSch and Commons Net are stand-in classes, and their contracts say when a request succeeds.
- Server refusals are fixed per path. An SFTP channel has a map from keys to status codes, and an FTP client has a set of refused keys. A missing path is reported as "no such file" before any refusal, and `mkdir` is allowed or refused by the parent directory.
- Factory.Create: lower-cases ASCII letters only, where Java's `toLowerCase` follows the default locale's Unicode rules.
- Factory.Create: the connection is reduced to its kind (an FTP connection, an SFTP connection, or null) and to how its `connect` would end.
- FtpTransfer.FtpFileTransfer.Exists: the `files != null` test is not modelled. Commons Net returns an empty array rather than null for a path it cannot list, so a refused or missing path reads as an empty listing.
- SftpTransfer.SftpFileTransfer.DeleteDirectory: the guarantees that nothing outside the directory changes and that a healthy directory is always deleted are stated only for a non-empty `remoteDir`. With `remoteDir == ""` the listing is of the working directory, but the child paths `"/" + name` are absolute, so they name other locations.
- FtpTransfer.FtpFileTransfer.DeleteDirectory: the same restriction to a non-empty `remoteDir`, for the same reason.
- SftpTransfer.SftpFileTransfer.CreateDirectories: the failure names the whole `remotePath`, as the code at `SftpFileTransfer.java:93` does, not the prefix the walk stopped on.
- The ghost request logs and the `closed` handle record exist only to state order; the Java objects have no such fields.
- The SFTP transfer over the JSch connection is composed here as evidently intended, though not as the source types it. `SftpFileTransfer` takes a `GateConnection` (`SftpFileTransfer.java:19`). `JschSftpConnection` implements only `SftpConnection` (`JschSftpConnection.java:6`), which does not extend `GateConnection`, so as written the two cannot be put together.
- Factory.Create: `SftpGate` stands for any `GateConnection` other than an `FtpConnection`, taken to connect and hand out a channel as `JschSftpConnection` does. "sftp" over an `FtpConnection` is modelled only up to the transfer's creation. That connection's `getChannel` returns null (`FtpConnection.java:98-99`), so every later SFTP operation on it would end in a NullPointerException.
- Jsch.SftpChannel.Ls: the stand-in lists a directory with "." and ".." first, as common servers do, while the SFTP protocol fixes no order. The "`.` and `..` first" in `SftpTransfer.SftpFileTransfer.ListFiles` describes the stand-in. The delete skips the two names wherever they appear, but its proofs rely on the stand-in's order.
