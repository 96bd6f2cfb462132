# Verification of the strongSwan VPN gateway's portal and quota code

This Dafny project models the parts of the gateway whose behaviour is hard to
see from reading one function, and proves what they promise. `dafny
verify dfyconfig.toml` checks the whole project.

- **VICI dumps** (`Vici`, `ViciPrint`, `ViciRoundTrip`, `ViciPlain`, `ViciStructure`). The
  mutually recursive parser of charon's dumps, as position-passing loops proved
  against functions; two printers (compact and pretty) and the exact condition
  under which a dump parses back to its tree; the place where a section ends on
  arbitrary text; and a one-pass scanner with a stack of brackets that decides,
  for every text, whether the parser accepts, raises or never returns.
- **rw-eap.conf as a map** (`ConfText`, `ConfLayout`, `ConfEdits`, `ConfStore`,
  `ConfRemoval`, `ConfExpiry`, `ConfFile`, `ConfTemplate`, `ConfBraces`,
  `ConfBalance`). The raw text edits of three programs, with every regular
  expression and the replacement template written out. In the file's own layout
  they are insert, update, delete and delete-by-prefix on a map from identity to
  secret, for any sequence of edits. Brace balance is treated for arbitrary
  balanced texts and for runs of edits of the layout.
- **Byte metering** (`Metering`, `MeteringRuns`, `MeteringPairs`, `MeteringDips`).
  One iteration of the quota monitor as a method, and runs of it against two meters
  that count, lose entries and are read one after the other, with readings that fail
  and iterations that fail or crash. An observer's account of the bytes that really
  passed gives the conservation laws, for a VIP and for one customer on one VIP over
  time, with the bytes that incomplete samples bill again or put off.
- **Atomic writes** (`AtomicWriter`, `AtomicRuns`, `AtomicHost`, `AtomicBackups`). Any number of
  local and remote writers interleaved step by step on a file system with names
  and inodes, with short writes, faults and crashes; and the two source functions
  as methods that are proved to be runs of that machine.
- **Lost updates** (`LostUpdates`, `LostEdits`, `LostRuns`). The callers of those
  writers read the file before they ask for the lock. What the file holds for
  every order of reads and replacements, for the edits of rw-eap.conf, and on every
  run of the writers' machine with the reads added.
- **Bulk delete** (`BulkDelete`, `BulkIntegrity`, `BulkSweep`). The transaction over customers,
  devices, users and the RADIUS tables with its orphan sweep and SQL LIKE, its
  exact result for every list of ids, and when references stay sound.
- **Provisioning** (`Provision`). `create_client`: the transaction, the edit of
  rw-eap.conf inside it and the compensation, tied to the two stores above.
- **Smaller pieces**: the `swanctl --list-sas` reader (`SasParser`,
  `SasRoundTrip`, `SasPlain`, `Fingerprints`), the SQL row printer of the migration with a reader for
  MariaDB's literals (`SqlLiterals`), the placeholder rewriter (`Placeholders`),
  sliding sessions (`Sessions`) and the login limiter (`RateLimit`). `Chars` holds
  what the text modules share, `Options` the optional value.

Commands, clocks, generated ids and secrets, and everything read over SSH are
parameters. Where the source keeps state, the model is a class whose methods
change its fields, and each method's new state is tied to a function about which
the lemmas speak.

## What the code does not do

Some statements one would expect are false of the code. Each is kept as the code
has it, and the exact condition is proved.

- The VICI parser swallows the next key after an empty value in the compact
  layout, and a one-character label is read together with the first section header
  that follows it (`ViciRoundTrip.DumpRoundTrip` says exactly when).
- The VICI list loops do not end at a bare `=`, at a `}` and at whitespace other
  than blank, tab and newline (`ViciStructure.BareCharacterHangs`); where the parser
  raises no error it ends exactly on the texts without such characters in lists
  (`ViciStructure.ParseEndsOnCleanLists`).
- Expiring an identity also removes the blocks of all identities it is a prefix of
  (`ConfExpiry.ExpiryKeepsOthers`).
- Removing a block can unbalance a file when the name is found in a place that is
  not a block header (`ConfBraces.RemoveBalance` and `ConfBraces.ExpireBalance` give
  the condition). Over a list of identities a later one can balance the text again
  (`ConfBalance.LaterIdentityCanRebalance`); the text stays balanced throughout
  exactly when every turn meets the condition (`ConfBalance.ExpireListBalance`).
- A new secret with backslashes is read as a replacement template, and can be
  refused or stored as another text. It is stored as it is exactly when the template
  says so (`ConfStore.ReplaceIsUpdate`, `ConfTemplate.ExpandsToItself`).
- Bytes that move while a customer is inactive can be billed after reactivation
  (`MeteringDips.InactiveBytesCanBeBilled`): exactly those that pass after the last
  finished iteration that sampled the lease, if its sample and the next one are full
  (`MeteringPairs.BytesSinceSampleBilled`, `MeteringPairs.BytesBeforeSampleNeverBilled`).
- Bytes can be billed twice. When the command that reads one of the two meters fails,
  the sample shows the other direction alone, the baseline falls to it, and the next
  full sample bills the hidden bytes again although nothing passed
  (`MeteringDips.HalfSampleBillsAgain`). The excess of a bill is the larger of nothing
  and the earlier sample's dip minus its own (`MeteringPairs.BillIsPassedAndDips`); a
  run is safe from it exactly if none of the pair's saved samples shows less than
  the meters hold (`MeteringDips.NeverBilledAgainExactly`).
- A writer's backup is never size-checked, so it equals what was replaced only if
  its copy was whole; and between a call over SSH and any other call a rename can land
  after the backup, which is then of something else (`AtomicBackups.MixedRunMisleads`;
  `AtomicBackups.BackupExactly` has the condition). Remote writers that share
  caller and second can leave an empty live file (`AtomicRuns.SharedNameEmptiesLive`).
- The bulk delete's row counts leave out what the orphan sweeps remove
  (`BulkIntegrity.DeleteIsCut`).
- The sweep for a deleted customer can delete another customer's user and RADIUS
  rows: underscores, percent signs and backslashes in the name are wildcards
  (`BulkSweep.UnderscoreDeletesOthers`), and a name can begin with another one and a
  hyphen (`BulkSweep.HyphenDeletesOthers`). The pattern means the prefix exactly for
  names without wildcards (`BulkSweep.PatternIsPrefixExactly`), and whatever the names,
  what is under a kept customer's name stays exactly when no user there lacks a device
  and is looked for (`BulkSweep.CustomerIsSparedExactly`).
- If the append of `create_client` raises after its rename, its block stays in
  rw-eap.conf although the tables are rolled back
  (`Provision.LookupsUnchangedExactly`).
- The compensation of `create_client` reads the file through a function that answers
  a failed remote command with the empty text, and writes what it made of that: if the
  write goes through, the whole file is lost (`Provision.FailedReadEmptiesFile`;
  `Provision.LookupsUnchangedExactly` has the condition).
- The migration prints an empty byte string as `0x` and an infinite float as `inf`,
  which are no literals (`SqlLiterals.StatementReadsBack`).
- The documentation of the local writer says that concurrent calls serialise
  cleanly. The lock covers the replacement only, and an edit made on what was read
  earlier loses the edits in between, although both calls succeed
  (`LostRuns.BothSucceedOneIsLost`, `LostEdits.FirstEditIsLost`). The file ends as the
  edits one after the other, whatever they are, exactly when no replacement falls
  between a call's read and its own (`LostUpdates.SequentialExactlyWhenUnovertaken`).

## Model

| member | source | states |
|---|---|---|
| Vici.ViciSection | quota/quota-exporter.py:354-420 | The section loop with its pending key computes the value, end position, error or endless loop that `SectionFrom` defines, for every text and start. |
| Vici.ViciValue | quota/quota-exporter.py:423-446 | The value reader agrees with `ValueAt` for every text and position. |
| Vici.ViciItems | quota/quota-exporter.py:387-397 | The list loop agrees with `ItemsFrom`; an item that does not move it is an endless loop. |
| Vici.ViciParse | quota/quota-exporter.py:339-345 | The envelope expression's label search and the body give what `Parse` defines, for every text. |
| ViciPrint.ItemsValueReads | quota/quota-exporter.py:387-402 | A printed list of tokens, in either layout and at any depth, is read back as that list and bound to its key. |
| ViciRoundTrip.SectionReads | quota/quota-exporter.py:354-420 | A printed section at any nesting depth is read back as exactly its entries, up to one past its closing brace. |
| ViciRoundTrip.DumpRoundTrip | quota/quota-exporter.py:319-446 | A dump in the compact or the pretty layout parses back to the same label and tree if and only if the label has two characters or no section header follows, and the layout is pretty or empty values only end their sections. |
| ViciPlain.PlainDumpRoundTrip | quota/quota-exporter.py:348-351 | The same for labels and trees spelled in letters, digits, `_`, `.` and `-`, with blanks, tabs and line ends around the dump. |
| ViciPlain.CompactPoolsParse | quota/quota-exporter.py:319-346 | A pool listing as it arrives parses to its tree, the base address in one piece. |
| ViciPlain.OnlyGapsAreSkipped | quota/quota-exporter.py:366-368 | Blanks, tabs and line ends are skipped; any other whitespace raises in a section. |
| ViciPlain.StrayValueRaises | quota/quota-exporter.py:369-401 | A value without a key raises, with the error of the character that introduced it. |
| Chars.SpacesAreThese | quota/quota-exporter.py:351 | The whitespace of `\s` and `strip`, character by character. |
| ViciRoundTrip.ShortLabelOverruns | quota/quota-exporter.py:340-343 | A one-character label before a section header is captured with what follows it. |
| ViciStructure.SectionEndsAtMatch | quota/quota-exporter.py:354-420 | On every text, a section that parses ends one past the bracket that matches its opening brace. |
| ViciStructure.ListEndsAtMatch | quota/quota-exporter.py:387-397 | A list that parses ends at its matching bracket or at the end of the text. |
| ViciStructure.ScanDecides | quota/quota-exporter.py:354-446 | A flat scanner with a bracket stack and no values decides acceptance with its end position, rejection and endless looping of the recursive parser, for every text. |
| ViciStructure.ParseEndsOnCleanLists | quota/quota-exporter.py:339-446 | For every raw text: if no list of its body holds a bare `=`, `}` or odd whitespace the parser ends, and a text that parses has no such list; so without an error it ends exactly on those texts. |
| ViciStructure.BareCharacterHangs | quota/quota-exporter.py:434-439 | A list loop that comes to such a character never ends. |
| ViciStructure.ParseEndsWithoutLists | quota/quota-exporter.py:319-345 | The parser terminates on every text without a list. |
| ConfStore.LookupIsGet | host/vpn-portal/installer_tokens.py:703-713 | In the file's layout, lookup on the text returns what the map holds for the identity, or nothing. |
| ConfStore.ReplaceIsUpdate | host/vpn-portal/app.py:2588-2608 | For an identity in the map, replacing its secret in the text gives the text of the updated map if and only if the replacement template reads the new secret as itself; an absent identity is refused. |
| ConfStore.PlainIsVerbatim | host/vpn-portal/app.py:2607 | A secret without backslashes is read as itself. |
| ConfTemplate.ExpandsToItself | host/vpn-portal/app.py:2607 | A template without an opening brace, whose groups hold one, expands to itself if and only if each backslash in it stands before a character that Python's template leaves alone. |
| ConfTemplate.LetterEscapes | host/vpn-portal/app.py:2607 | Seven letters after a backslash stand for a control character, two backslashes for one, and every other letter but a group's raises. |
| ConfTemplate.DigitEscapes | host/vpn-portal/app.py:2607 | A digit after a backslash is the pattern's group, the whole match, a character by its octal code, or raises. |
| ConfText.SecretIsQuoted | host/vpn-portal/installer_tokens.py:703-711 | On any text, a secret that lookup reports is not empty, holds no quote and stands between two quotes. |
| ConfText.AppendAnswers | host/vpn-portal/app.py:849-882 | On any text, which of the three refusals an append gives, in their order, and otherwise the new text spelled out. |
| ConfText.MatchIsGroupAndSecret | host/vpn-portal/app.py:2600-2603 | On any text, the replace pattern matches its group, the old secret between two quotes, and nothing else. |
| ConfText.WholeBlockIsFlat | host/vpn-portal/app.py:1521-1525 | On any text, the compensation takes a block exactly when no opening brace stands before its first closing one, up to that brace and one newline after it. |
| ConfRemoval.RemoveIsDelete | host/vpn-portal/app.py:2434-2464 | Removing a block from the text gives a well-formed file that means the map without that identity; an absent one is reported. |
| ConfExpiry.AppendIsInsert | host/vpn-portal/app.py:839-882 | Appending is inserting; an identity that is present is a conflict. |
| ConfExpiry.HasBlockIsMember | host/vpn-portal/app.py:885-888 | The line-anchored existence test is membership in the map. |
| ConfExpiry.ExpiryIsDelete | quota/quota-monitor.py:433-456 | Expiring a list removes exactly the blocks whose identity a listed one begins, and the count is the number of blocks removed. |
| ConfExpiry.ExpiryKeepsOthers | quota/quota-monitor.py:433-456 | After an expiry the lookup of an identity is unchanged, unless a listed identity is a prefix of it, and then it is gone. |
| ConfExpiry.CompensateIsSplice | host/vpn-portal/app.py:1520-1525 | The compensating expression removes exactly the identity's block, the blanks before it and one newline. |
| ConfExpiry.AppendThenCompensate | host/vpn-portal/app.py:1504-1525 | Append and then compensation give a well-formed file with the same secrets. |
| ConfFile.Conf.Remove | host/vpn-portal/app.py:2434-2464 | The index loops leave the text that the specification of removal gives, or leave it alone. |
| ConfFile.Conf.RemoveEach | quota/quota-monitor.py:437-456 | The nested loops for one identity terminate and compute the specified text and count. |
| ConfFile.Conf.RemoveListed | quota/quota-monitor.py:434-456 | The loop over the identities computes the specified text and total. |
| ConfFile.Conf.Expire | quota/quota-monitor.py:430-498 | The file is replaced only if something was removed and both sections are still there; a write that raises counts nothing, and after a failed reload the original is back unless that write is refused too. |
| ConfFile.ExpiryOutcomes | quota/quota-monitor.py:457-498 | Blocks are counted exactly when some were removed, both sections remain, the write landed and charon reloaded, and then the file is the edited one; a write that raised before its rename and a failed reload whose restoring write goes through leave the file as it was; it stays edited without a count only after a write that raised late or a refused restoring write. |
| ConfFile.Conf.Append | host/vpn-portal/app.py:839-882 | The search over lines, the section checks and the two trimming loops leave the specified text on success; otherwise the file is as it was and the refusal says why. |
| ConfFile.Conf.Replace | host/vpn-portal/app.py:2598-2608 | The search for the secret's line and the reading of the replacement template leave the specified text, or the file as it was if nothing is found or the template is bad. |
| ConfFile.RunRefines | host/vpn-portal/app.py:839-882 | Any sequence of append, replace, remove and expire edits of the text is that sequence of edits of the map, and the file stays well formed. |
| ConfFile.LookupAfterRun | host/vpn-portal/installer_tokens.py:703-713 | After any sequence of edits, lookup on the text answers from the edited map. |
| ConfBraces.ScanFindsMatch | host/vpn-portal/app.py:2443-2454 | In a balanced text the depth-counting scan stops one past the brace that matches the one it started from. |
| ConfBraces.RemoveBalance | host/vpn-portal/app.py:2438-2462 | Removal keeps a balanced text balanced if and only if no `}` stands between the name found and the brace found. |
| ConfBraces.ExpireTurnBalance | quota/quota-monitor.py:438-455 | One turn of the expiry loop keeps a balanced text balanced under the same condition, and only then. |
| ConfBraces.ExpireBalance | quota/quota-monitor.py:436-456 | Expiring an identity keeps a balanced text balanced if and only if every turn of the loop meets the condition. |
| ConfBalance.LayoutBalance | host/vpn-portal/app.py:849-882 | A file in the layout is balanced if and only if its header leaves exactly the brace of `secrets` open. |
| ConfBalance.RunKeepsBalance | host/vpn-portal/app.py:839-882 | After any sequence of appends, replacements, removals and expiries of the layout the text is balanced if and only if it was before. |
| ConfBalance.CompensationKeepsBalance | host/vpn-portal/app.py:1504-1525 | So is it after an append that is compensated. |
| ConfBalance.ExpireListBalance | quota/quota-monitor.py:436-456 | Over a list of identities a balanced text is balanced after each of them if and only if every turn meets the condition. |
| ConfBalance.LaterIdentityCanRebalance | quota/quota-monitor.py:436-456 | A concrete text that the first identity unbalances and the second balances again. |
| ConfBraces.ReplaceBalance | host/vpn-portal/app.py:2601-2607 | Replacing a secret by one without braces keeps a balanced text balanced if and only if the old secret held as many opening as closing braces. |
| ConfBraces.AppendBalance | host/vpn-portal/app.py:871-882 | Appending a block to a balanced text gives a balanced text. |
| Metering.SidecarKeyInjective | quota/quota-monitor.py:611-612 | Two (customer, VIP) pairs never share a sidecar key. |
| Metering.SampleCounters | quota/quota-monitor.py:127-138 | The loop over the VIPs of both meters gives each the sum of what the two readings show, a missing one counting nothing. |
| Metering.QuotaMonitor.RunOnce | quota/quota-monitor.py:624-698 | One iteration, finished, failed before its commit or crashed before its save, leaves the books that the specification gives. |
| Metering.LeaseIsBilledExactly | quota/quota-monitor.py:640-691 | A lease is billed exactly when its VIP is metered, its identity is mapped to a customer who is no operator and active, and the meters show more than a saved baseline; the bill is that difference. |
| Metering.BillsNameBillable | quota/quota-monitor.py:656-666 | Every bill of an iteration names the VIP of a sampled lease and its customer, who is no operator and active. |
| Metering.SparedCustomerKeepsUsed | quota/quota-monitor.py:656-666 | An iteration in which every sampled record of a customer is an operator or inactive leaves the customer's used bytes. |
| Metering.IterationFates | quota/quota-monitor.py:624-698 | A failure before the commit changes nothing, a crash before the save keeps the baselines, a finished iteration without leases clears them, and otherwise there is a baseline for exactly the sampled pairs. |
| Metering.KeyText | quota/quota-monitor.py:611-612 | A sidecar key is the customer's number and the VIP with a colon between them. |
| MeteringRuns.StepIsIteration | quota/quota-monitor.py:624-698 | In a run, the books change exactly as one iteration says. |
| MeteringRuns.UsedIsLedger | quota/quota-monitor.py:683-692 | On every run, a customer's used bytes are what they were plus exactly the committed bills. |
| MeteringRuns.BilledIsOwed | quota/quota-monitor.py:88-138 | On every run, entries of either meter unread or lost included, a pair is billed at most the bytes owed since its last sample, plus what dips bill again, plus the replays after crashes; while its VIP loses no entry the difference is exactly what dips put off; and nothing is billed again or put off where both meters are always read. |
| MeteringRuns.VipNeverOverbilled | quota/quota-monitor.py:625-698 | If listings name each VIP once, the sidecar never has two keys for one VIP, and all bills on a VIP together stay within the bytes passed since its first sample plus replays and what dips bill again, which is nothing where both meters are always read. |
| MeteringPairs.IterationBillsExactly | quota/quota-monitor.py:656-693 | A finished iteration bills a pair exactly what its sample shows beyond the saved baseline if it serves the pair and has one, otherwise nothing; every pair it samples gets what it shows as baseline, and a mark with the bytes passed so far and those not shown. |
| MeteringPairs.BillIsPassedAndDips | quota/quota-monitor.py:668-693 | In bytes, such a bill is what passed since the mark plus the mark's dip minus this sample's, or nothing; it exceeds what passed if and only if the earlier dip is the larger. |
| MeteringPairs.NeverBillsEarlierBytes | quota/quota-monitor.py:656-691 | A pair is never billed for bytes that passed before its last sample, replays and what dips bill again apart. |
| MeteringPairs.BytesBeforeSampleNeverBilled | quota/quota-monitor.py:656-691 | After a finished iteration that samples a lease, of an inactive customer or a new holder too, the pair is billed at most what passes from then on, replays and repeats apart; with full samples there are no repeats. |
| MeteringPairs.BytesSinceSampleBilled | quota/quota-monitor.py:656-693 | The next finished iteration that serves the pair, no entry lost, bills exactly what passed since that sample plus the first dip minus the second, whatever the customer's status was meanwhile; with full samples exactly what passed. |
| MeteringPairs.UnsampledBillsNothing | quota/quota-monitor.py:665-675 | A finished iteration bills nothing to a pair that has no saved baseline. |
| MeteringPairs.ContinuousPairExact | quota/quota-monitor.py:668-693 | A pair with a baseline that every iteration serves is billed exactly the advance of that baseline, plus all its falls, plus the replays, through failures, crashes, lost and unread entries. |
| MeteringPairs.ContinuousPairReadFully | quota/quota-monitor.py:668-693 | Where both meters of its VIP are always read and lose no entry, no baseline of such a pair falls and its meters count exactly what passes. |
| MeteringPairs.ContinuousPairWithoutCrash | quota/quota-monitor.py:668-693 | Without crashes it is then billed exactly its last saved total minus its first. |
| MeteringDips.SafeExactly | quota/quota-monitor.py:88-138 | From any point of a run, every continuation with full samples bills a marked pair within what passes since its mark, if and only if its meters have grown beyond the baseline by no more than what passed; without lost entries, if and only if the marked sample was full. |
| MeteringDips.NeverBilledAgainExactly | quota/quota-monitor.py:88-138 | On every run in which the VIP loses no entry, no point is followed by such an excess if and only if none of the pair's saved samples showed less than the meters held. |
| MeteringDips.HalfSampleBillsAgain | quota/quota-monitor.py:88-138 | A run that bills a thousand bytes after its first sample although none passed, because one meter's command failed once. |
| MeteringDips.InactiveBytesCanBeBilled | quota/quota-monitor.py:656-693 | A run that bills a hundred bytes which all moved while the customer was inactive. |
| AtomicWriter.TagInjective | host/safe_write_rw_eap.py:125-127 | Two calls share their temp and backup names exactly when they share caller and second. |
| AtomicRuns.LiveAlwaysWhole | host/safe_write_rw_eap.py:130-165 | At every point of every interleaving, with short writes, faults and crashes, the live file is the initial content or all of the last renamer's. |
| AtomicRuns.WholeExactlyWhenApart | host/safe_write_rw_eap.py:182-184 | For calls that write something, that holds on all runs if and only if no two calls share a temp name, unless both take the lock. |
| AtomicRuns.SharedNameEmptiesLive | host/safe_write_rw_eap.py:194-246 | Two calls that share a name without the lock have a run that ends with an empty live file. |
| AtomicRuns.LockNeverStuck | host/safe_write_rw_eap.py:76-96 | On every run the lock is free or held by a local call still on its way. |
| AtomicRuns.BackupOfSuccess | host/safe_write_rw_eap.py:130-167 | When a call serialised by the lock leaves successfully, its bytes are live, and its backup is the replaced content exactly when the backup copy was whole. |
| AtomicBackups.BackupExactly | host/safe_write_rw_eap.py:130-246 | With names apart, on every run of local and remote calls: a successful call's backup is what was live at its backup step, as far as stored, and it replaced what was live at its rename; with no other rename in between the backup is the replaced content exactly when the copy was whole, and a whole copy, where contents differ, is so exactly when no other rename landed in between. |
| AtomicBackups.MixedRunMisleads | host/safe_write_rw_eap.py:130-246 | Two calls that are not both local have a run in which both succeed and one's whole backup is not of what it replaced. |
| AtomicHost.Host.AtomicWriteLocal | host/safe_write_rw_eap.py:105-167 | The function is a run of the machine; on success its content is live with a backup of the old one, otherwise the live file is the old or the new content; the lock is free again. It succeeds if and only if there was a live file, no step raised, as much was written as the content has and the rename was reported; the live file is the new content exactly when the rename landed; and exactly when the temp name stays. |
| AtomicHost.Host.AtomicWriteRemote | host/safe_write_rw_eap.py:170-263 | The same for the remote variant without the lock: the outcome, when it succeeds, when the live file is new and when the temp name stays. |
| AtomicHost.Host.CheckAndRename | host/safe_write_rw_eap.py:146-165 | Size check, rename and second check take the machine's steps, with each variant's own clean-up. |
| LostUpdates.FileIsChain | host/safe_write_rw_eap.py:112-165 | For every order of reads and replacements, every edits and every first text, the file holds the edits of the chain of calls that each read the one before. |
| LostUpdates.LastSwapDecides | host/safe_write_rw_eap.py:112-165 | The last call to replace the file leaves its edit of what it read; everything replaced in between is gone. |
| LostUpdates.ChainIsWholeExactlyWhenUnovertaken | host/safe_write_rw_eap.py:112-116 | Every replacement's edit is in the file if and only if no other replacement falls between a call's read and its own. |
| LostUpdates.SequentialExactlyWhenUnovertaken | host/safe_write_rw_eap.py:112-116 | The file ends as the edits made one after the other, whatever they are, if and only if that holds. |
| LostEdits.ConcurrentEdits | quota/quota-monitor.py:433-471 | Any order of the reads and replacements of rw-eap.conf edits leaves a well-formed file that holds the chain's edits of the map, all of them in order if no call was overtaken. |
| LostEdits.FirstEditIsLost | host/vpn-portal/app.py:2436-2463 | When both calls read first, lookups answer as if only the second edit had been made, so a removed identity can be back. |
| LostRuns.LiveIsChain | host/safe_write_rw_eap.py:105-263 | On every run of local and remote writers with their callers' reads, short writes, faults and crashes, the live file holds the edits of the chain, and all landed ones in order if no rename fell between a call's read and its own. |
| LostRuns.BothSucceedOneIsLost | host/safe_write_rw_eap.py:112-116 | For any edits there is a run in which two calls, both with the lock, report success and the live file holds only the second one's edit of the first content. |
| BulkDelete.Database.Delete | host/vpn-portal/scripts/bulk_action.py:98-296 | The transaction leaves the database and report of the specification, or on an exception at any id or at the commit the database as it was. |
| BulkDelete.DeleteCustomer | host/vpn-portal/scripts/bulk_action.py:176-286 | The statements for one customer, skipped ones included, have the specified effect and counts. |
| BulkIntegrity.DeleteIsCut | host/vpn-portal/scripts/bulk_action.py:123-286 | The exact result for every list of ids: which rows of every table go, and that reported plus swept row counts add up. |
| BulkIntegrity.EveryIdIsReported | host/vpn-portal/scripts/bulk_action.py:124-134 | Every id is reported as often as it was given, as affected if it is a customer and no operator, else as skipped with the right reason. |
| BulkIntegrity.DanglesExactly | host/vpn-portal/scripts/bulk_action.py:225-270 | A kept device loses its user if and only if that user carries the name of a deleted identity. |
| BulkIntegrity.DeleteKeepsLinks | host/vpn-portal/scripts/bulk_action.py:176-284 | If every device has its customer and a unique user named after both, that still holds after deleting any customers. |
| BulkIntegrity.DeletedIdentityIsGone | host/vpn-portal/scripts/bulk_action.py:195-228 | No RADIUS row and no user is left of a deleted identity. |
| BulkIntegrity.DeletedDeviceIsGone | host/vpn-portal/scripts/bulk_action.py:176-284 | Of every device of a deleted customer nothing is left, its identity being the two names with a hyphen between them. |
| BulkIntegrity.KeptIdentityIsUntouched | host/vpn-portal/scripts/bulk_action.py:233-266 | User and RADIUS rows of an identity still linked to a device are untouched, by the sweeps too. |
| BulkIntegrity.NoOrphanLeft | host/vpn-portal/scripts/bulk_action.py:229-266 | No user is left that a sweep of a deleted customer would look for. |
| BulkIntegrity.UnsoughtUserStays | host/vpn-portal/scripts/bulk_action.py:225-270 | On any database, a user that is no deleted identity and that no sweep looks for stays. |
| BulkIntegrity.UsersGoExactly | host/vpn-portal/scripts/bulk_action.py:195-270 | On a well-linked database a user goes if and only if it carries a deleted identity, or had no device and a sweep of a deleted customer looks for it. |
| BulkIntegrity.RowsGoExactly | host/vpn-portal/scripts/bulk_action.py:195-266 | There the RADIUS rows of a name go, from all five tables, if and only if the name is a deleted identity or that of such a swept user; otherwise all of them stay. |
| BulkSweep.PatternIsPrefixExactly | host/vpn-portal/scripts/bulk_action.py:236-237 | The sweep's pattern matches exactly the names that start with the customer's name and a hyphen if and only if that name holds no percent sign, underscore or backslash. |
| BulkSweep.OtherNamesUntouched | host/vpn-portal/scripts/bulk_action.py:195-266 | On any database, with such names no RADIUS row outside the deleted customers' own names is touched. |
| BulkSweep.CustomerIsSparedExactly | host/vpn-portal/scripts/bulk_action.py:195-270 | On a well-linked database, whatever the names, the users and RADIUS rows under a customer's name stay, identities of deleted devices apart, if and only if none of those users lacks a device and is looked for by a sweep. |
| BulkSweep.HyphenDeletesOthers | host/vpn-portal/scripts/bulk_action.py:229-266 | On a well-linked database with plain names, deleting customer `a` deletes the user and the RADIUS rows of customer `a-b`, who stays. |
| BulkSweep.UnderscoreDeletesOthers | host/vpn-portal/scripts/bulk_action.py:229-266 | On a well-linked database, deleting customer `a_c` deletes the user and the RADIUS rows of customer `abc`, who stays. |
| Provision.Portal.Create | host/vpn-portal/app.py:1438-1528 | Tables and file after a success or a failure anywhere are those of the specification. |
| Provision.Portal.Execute | host/vpn-portal/app.py:1442-1501 | The eleven statements, any of which may raise, go through and give the specified tables unless one raises or a name is taken. |
| Provision.Portal.Compensate | host/vpn-portal/app.py:1518-1527 | The read, which can fail into the empty text or raise, the substitution and the write leave the specified file. |
| Provision.FailureOutcome | host/vpn-portal/app.py:1511-1528 | After any failure no table has changed, and the file is empty if a failed read was written back; otherwise it means the same secrets, or exactly one more when the block was left behind. |
| Provision.LookupsUnchangedExactly | host/vpn-portal/app.py:1503-1527 | Every lookup answers as before if and only if no block is left behind, by an append that raised after its rename or a compensation that raised, and no empty read is written back over a file that holds secrets. |
| Provision.FailedReadEmptiesFile | host/vpn-portal/app.py:769-778 | When the reload and the compensating read fail and the write goes through, the file is empty and every lookup finds nothing. |
| Provision.CreateKeepsLinks | host/vpn-portal/app.py:1442-1473 | A successful create keeps references sound. |
| Provision.SucceedsExactly | host/vpn-portal/app.py:1438-1508 | A create succeeds exactly when nothing fails, no customer has the name, no user has the identity and the file has no block for it. |
| Provision.CreateAddsOnlyItsOwn | host/vpn-portal/app.py:1442-1501 | The new device leads from the customer to a user of the identity with its group, and no RADIUS row of another name is touched. |
| Provision.StoresAgree | host/vpn-portal/app.py:1487-1504 | After a success the identity has exactly two radcheck rows, the first with the secret that lookup finds in the file as cleartext password, the second with the hash, and that secret is the one asked for. |
| Provision.DeleteUndoesCreate | host/vpn-portal/app.py:3029-3037 | Bulk delete of a customer just created, and removal of the reported block, give back every table and the same secrets. |
| SasParser.ParseSas | host/vpn-portal/app.py:549-629 | The loop over the lines, which fills the last element of its list, computes what the fold over lines does. |
| SasParser.ReadLine | host/vpn-portal/app.py:584-628 | The branches for one line change the current SA as specified, the fingerprint of its proposal included. |
| Fingerprints.Fingerprint | host/vpn-portal/app.py:500-510 | The loop over the table of needles gives the device that the table specifies. |
| Fingerprints.EarliestDecides | host/vpn-portal/app.py:480-510 | The earliest entry whose needle occurs in the proposal decides, and nothing is inferred exactly when none occurs. |
| Fingerprints.AppleProposal | host/vpn-portal/app.py:484-510 | The most common proposal is inferred as its client, and no proposal infers nothing. |
| SasParser.ParsesByParts | host/vpn-portal/app.py:560-629 | Lines that start with a header parse by themselves, whatever came before. |
| SasParser.LabelledIsNoAlgorithm | host/vpn-portal/app.py:599-610 | A line that starts with one of the ten other words is never taken for the proposal. |
| SasParser.BlankOrSlashlessIsNoAlgorithm | host/vpn-portal/app.py:607-608 | Nor is a text with a blank, without a slash or without characters. |
| SasParser.HeaderIsSpelled | host/vpn-portal/app.py:527-531 | The six words of a header, spelled out. |
| SasRoundTrip.ShutNoPeer | host/vpn-portal/app.py:532-540 | A line in which no blank and quote follow an `l` is never taken for a local peer. |
| SasPlain.PlainListingReadsBack | host/vpn-portal/app.py:513-629 | The same for listings spelled in characters: tokens of letters, digits, `_`, `.` and `-`, dotted quads, upper-case proposals with slashes, ages and traffic selectors as the children's other lines. |
| SasRoundTrip.ListingReadsBack | host/vpn-portal/app.py:560-629 | A rendered list of SAs with one child each parses back to exactly those SAs, with the EAP identity as `remote_id` when it is present and not empty. |
| SqlLiterals.MigrateTable | host/vpn-portal/scripts/migrate_sqlite_to_mariadb.py:198-226 | One INSERT a row is executed, with the specified text, and all are committed and counted; at the first row with a value of another type it raises, with the rows before it executed and nothing committed. |
| SqlLiterals.RowLiterals | host/vpn-portal/scripts/migrate_sqlite_to_mariadb.py:209-222 | The loop over one row collects the literals of all its values, or raises if one has another type. |
| SqlLiterals.StatementExactlyWhenHandled | host/vpn-portal/scripts/migrate_sqlite_to_mariadb.py:210-223 | A row has a statement if and only if none of its elements has another type, whatever else they are, and it is of their values in order. |
| SqlLiterals.ValueReadsBack | host/vpn-portal/scripts/migrate_sqlite_to_mariadb.py:211-220 | A literal before a comma or parenthesis reads back as its value, floats digit by digit, unless it is the literal of no bytes or of an infinity, which do not read. |
| SqlLiterals.StatementReadsBack | host/vpn-portal/scripts/migrate_sqlite_to_mariadb.py:208-224 | The VALUES list of a statement reads back as exactly the row, and ends there, if and only if no value is an empty byte string or an infinity. |
| SqlLiterals.InsertReadsBack | host/vpn-portal/scripts/migrate_sqlite_to_mariadb.py:206-224 | The whole statement reads back as its table, its columns in order and the row under the same condition. |
| Placeholders.RewritesInOrder | host/vpn-portal/portal_auth.py:231-241 | The split and join number the marks in order; a count mismatch is an error, and only that. |
| Placeholders.ReadsAsMeant | host/vpn-portal/portal_auth.py:236-239 | A longest-match reader finds exactly the marks in order if and only if no colon and no mark is directly followed by a name character. |
| Placeholders.BindsInOrder | host/vpn-portal/portal_auth.py:221-241 | Then the i-th parameter found is bound to the i-th value, and turning parameters back into marks gives the original text. |
| Placeholders.NamedIsLeftAlone | host/vpn-portal/portal_auth.py:227-230 | Without a list of values the text stays as it is, and nothing or the named values are bound. |
| Placeholders.TwoMarks | host/vpn-portal/portal_auth.py:231-241 | A statement with two marks as it is written. |
| Sessions.PortalAuth.Create | host/vpn-portal/portal_auth.py:440-452 | A new id gets a row that expires one time-to-live later; a taken id changes nothing. |
| Sessions.PortalAuth.Verify | host/vpn-portal/portal_auth.py:455-501 | UPDATE first, then row count, clean-up and SELECT accept exactly live rows and leave the specified table. |
| Sessions.PortalAuth.Purge | host/vpn-portal/portal_auth.py:510-516 | Expired rows go, the others stay, and the count is of the rows removed. |
| Sessions.PortalAuth.RevokeAll | host/vpn-portal/portal_auth.py:632-647 | Every session of the user, or of everybody, is marked revoked, and the count is of those that were not yet. |
| Sessions.AcceptedExactlyWhenGood | host/vpn-portal/portal_auth.py:440-516 | On every run a verify is accepted if and only if the session is open, within its time after the last slide and, for a customer, below the age cap; purges and clean-ups never matter. |
| Sessions.AcceptedForSoLong | host/vpn-portal/portal_auth.py:455-494 | In seconds: a customer's verify is accepted exactly for an open session within 3600 of its last slide and under 604800 of age, an operator's exactly within 28800 of the last slide. |
| Sessions.CleanUpExactly | host/vpn-portal/portal_auth.py:476-494 | A sliding verify removes exactly a row whose time is over or, for a customer, that is seven days old; no other row, and nothing without a slide. |
| Sessions.AcceptedReportsSession | host/vpn-portal/portal_auth.py:495-501 | An accepted verify reports the session's owner and creation, and times counted from its last slide. |
| Sessions.SlidIsEvent | host/vpn-portal/portal_auth.py:466-474 | The last slide is the session's creation or a sliding verify that was accepted. |
| Sessions.RevokedNeverAccepted | host/vpn-portal/portal_auth.py:585-622 | A revoked operator session is never accepted again, however rows are counted. |
| Sessions.ChangedCountRefuses | host/vpn-portal/portal_auth.py:488-494 | If the driver counted changed rows, a verify that does not slide would always refuse. |
| RateLimit.Limiter.Attempt | host/vpn-portal/portal_auth.py:524-529 | An attempt is allowed or refused and stored as specified; a refusal stores nothing. |
| RateLimit.LimiterIsExact | host/vpn-portal/app.py:222-227 | On every sequence of attempts, a refusal means exactly five accepts of that address within sixty seconds; accepts five apart are sixty seconds apart; no stored list exceeds five. |
| RateLimit.FifthAcceptDecides | host/vpn-portal/portal_auth.py:519-529 | In numbers: an attempt is refused exactly when its address has five accepts and the fifth from the end is less than sixty seconds old; each accept is at least sixty seconds after the one five before it. |

## Left out

- Nested VICI lists and sections as list items in the printers: the round trip is over sections, token values and lists of non-empty tokens, with distinct keys.
- A VICI label that holds a `{`: excluded from the round trip; the parser model itself covers it.
- The dump routine of charon, vici_message.c, is not part of this model; the printers follow the two layouts named in `vici_parse`.
- Stack depth of the recursive VICI parser.
- Regular expressions are deterministic matchers; Unicode digits and case folding are not modelled.
- Identities that hold `eap-`, whitespace, quotes or braces, and secrets that hold quotes or braces: excluded from the store theorems; for expiry runs secrets that hold `eap-` too.
- `kill_customer_credentials` of the quota monitor: a further call of the writer with a replacement like the modelled one.
- The sidecar is saved in one atomic step; a torn JSON write is not modelled.
- `backfill_orphans`, session tracking from radacct and the killing of expired customers: they are other writers of the same rows.
- Column values other than the used bytes, such as limits and timestamps, in the metering tables.
- Two VIPs that share an identity in one listing are covered; two leases of one VIP in one listing are excluded where the theorem says so.
- A backup is copied in one step, and a remote `tee` that keeps writing after its caller has given up is not modelled.
- `mkdir` of the lock and backup directories, file modes and `fsync`.
- Restoring from the newest backup file.
- The archive, unarchive and change-tier actions of the bulk script: single-row updates.
- Collation: names are compared character by character, and SQL LIKE likewise.
- The argument checks of the bulk script before its transaction.
- Order of the rows a SELECT returns, so the deleted identities of one customer are a set.
- Input validation of `create_client`, the check for taken names before the transaction, tiers, the NTLM hash and `customers.user_id`.
- `audit_log` rows that the portal writes after its actions.
- The splitting of the SA text into lines.
- SAs with several children: covered by the parser model and its composition law, not by the round trip.
- Which digits Python's `repr` gives a float, and what number MariaDB makes of them: a float is its printed digits. SQLite keeps NaN as NULL.
- Adjacent string literals, which MariaDB joins: the printer never puts two side by side.
- SQLAlchemy's own rule for parameters: the reader is longest match after a colon.
- User agent and address columns of sessions, and the cookie handling.
- The empty list that the portal's first look at an address leaves behind in its `defaultdict`.
- nftables, tc, RADIUS, Telegram, Prometheus and browser code.
