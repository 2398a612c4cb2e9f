# Verification of the configuration, locking, session, quota and audit code

This project models five parts of the repository in Dafny and proves what each of them is for.

- **The configuration engine** (`oslo_config`). A line parser turns a file into events; events become section maps;
  section maps become a namespace that is searched newest file first; a lookup goes through override, namespace, set
  default and declared default, replaces `$name` references by further lookups, and is memoised. Each stage is proved
  against a simpler account of the same thing: the parser against a block grammar, the section maps against a replay of
  assignments, the search against the replay of all files, the command line against an in-order list of sources, and
  the memoised lookups, over whole runs of operations, against lookups that cache nothing. The types `List`, `Dict` and
  `String` are proved against the one way a text can be cut, and with their printed forms. The sample-file generator is
  proved to print what the parser reads back.
- **The two-level lock** (`oslo_concurrency`), as a transition system of any number of processes with any number of
  threads, with table entries collected at any moment nobody refers to them.
- **The retry and redirect loop** (`keystoneauth1`), over a network that answers every request as it likes.
- **UTF-8 truncation and audit periods** (`nova/utils.py`).
- **Quota resolution and settable ranges** (`nova/quota.py`).

## How the files fit together

| file | contents |
|---|---|
| Wrappers, Text, Sorting | results and options; strip, find, split, join; sorting by name |
| IniParser, LineForms | `iniparser.py` and its block grammar; what it takes a line for, character by character |
| ConfigFiles, SectionForms, Options, Naming | section maps, what a file assigns, the namespace search, the names an option is found under |
| CommandLine, Arguments | command line and files in order, and what one more argument does |
| Template, Registry, Visiting, Storing, ConfigEngine | templates, uncached lookups, the options a lookup comes by and what it leaves in the cache, the `ConfigOpts` object with its cache |
| Lookups, Settings | what references, layers and conversions give; what registering, setting and clearing change, and which files are accepted |
| Reloading | from arguments and the text of files to the installed namespace |
| Layers, ConfigRuns, ConfigLimits, Mutation | what a setting is seen by and what undoes it, runs of operations, examples that need the stated conditions, runs of mutations |
| Segments, ListType, DictType, StringType | the shared cutting of comma-separated text, and the three types |
| Generator, SampleReading, SampleFiles, SampleContents | the sample printer, what the parser reads in a file line by line, what it reads in a sample, and what a namespace gets from it |
| AuditPeriod, Calendar | audit periods, and the dates and instants behind them |
| LockUtils, KeystoneSession, SafeTruncate, Quota, QuotaConservation | the other components |

Where the source keeps a list or a dictionary in an object and changes it, the model has a class whose fields are
sequences and maps and whose methods reassign them. Python exceptions are values of a `Result` or `Option`. A lookup has
a depth budget in place of Python's recursion limit.

## Where the code does not do what it says

These were found while proving the properties; the model follows the code.

- `mutate_config_files` promises that only mutable options change. But validating the new values of command-line options
  looks up in the new files whatever they refer to, and checking the required options looks these up, and all of it is
  cached, where later lookups find it: the new value of an immutable option (`ConfigLimits.ValidationLeaks`,
  `ConfigLimits.RequiredOptionLeaks`), and after a mutation that is refused values of the refused files, of mutable
  options as well, or None for an option they lack (`ConfigLimits.RefusedValidationLeaks`,
  `ConfigLimits.RejectedMutationLeaks`). When the cache is right after either outcome is in the contract of
  `ConfigEngine.ConfigOpts.MutateConfigFiles`.
- With a mutable namespace, looking up an immutable option that refers to a mutable one caches the old value of the
  mutable one (`ConfigLimits.NamespacesMix`). Which lookups do such a thing is said exactly by `Storing.RecordedCache`.
- A refused registration of a command-line option leaves its entry in the list of these
  (`ConfigEngine.ConfigOpts.RegisterOpt`), and unregistering an option of DEFAULT takes the entry of a command-line
  option of the same name in any group off the list (`ConfigLimits.EntryOfAnother`; when registering and unregistering
  undo each other is said exactly by `Layers.UnregisterUndoesRegister`).
- `register_group` does not clear the cache. A cached value becomes wrong exactly when its lookup comes by the group's
  name outside any group (`ConfigEngine.GroupKeepsCache`). That is the option of that name itself
  (`ConfigLimits.GroupNamedLikeOption`), and also a template in which a missing option of a group was taken for the
  group's own option being missing, so that the lookup fell back to DEFAULT
  (`ConfigLimits.GroupMentionedBySwallowedReference`).
- On the namespace of the command line an option of a group and an option of DEFAULT whose name is the group's, an
  underscore and the option's are kept in one place, so that each finds the other's value (`Naming.PlaceShared`).
- Two lock names that differ only in slashes and underscores share a lock file, and then two processes can be inside
  one external lock (`LockUtils.LockPathsDistinct`).
- A quoted item of a list is read as an empty text if only white space stands between its opening quote and a comma
  (`StringType.QuotedListIff`).
- A string default without outer white space that begins and ends with one kind of quote loses its quotes on the way
  through a sample file (`SampleFiles.StringDefaultIff`).
- With wrapping turned off, the second and later lines of a help text are printed without a comment sign, so that the
  sample assigns what they say or cannot be read (`SampleFiles.UnwrappedHelpLeaks`; exactly when, in
  `SampleFiles.SampleParses`).
- An unlimited user limit is subtracted as -1, so another user is offered more than the project has
  (`QuotaConservation.UnlimitedRowOvercounts`); which ranges keep the limits given out within the project's is said
  exactly by `QuotaConservation.UserRangeIff` and `QuotaConservation.ProjectRangeIff`.
- `headroom` of an exceeded quota is the project's limit, also where it is the user's limit that is exceeded
  (`Quota.HeadroomMisleads`); it can be asked for exactly when the user's limit is not below it
  (`Quota.HeadroomUsableIff`).
- `safe_truncate` decodes with the encoding of standard input first. One that reads parts of characters, such as
  Latin-1, gives a text that is no beginning of the one given (`SafeTruncate.Latin1Breaks`); for which encodings it is
  right is `SafeTruncate.RightIffReadsWhole`.

## Model

| member | source | states |
|---|---|---|
| IniParser.SplitsAtFirstSeparator | oslo_config/iniparser.py:42-56 | a line is split at its first colon or equals sign, whichever comes first, and only a line with neither is refused |
| IniParser.AcceptsIff | oslo_config/iniparser.py:58-97 | the block grammar accepts exactly the inputs without a malformed line whose continuation lines follow a key line or another continuation line |
| IniParser.ReadingUnique | oslo_config/iniparser.py:58-97 | an input has at most one reading as blocks, so no line is lost or used twice |
| IniParser.BaseParser.Parse | oslo_config/iniparser.py:58-97 | succeeds exactly on what the grammar accepts, with the events of the one reading and `lineno` the number of lines; otherwise the error is at the first line that nothing accepted continues with, and all blocks before it were handled |
| IniParser.BaseParser.HandleLine | oslo_config/iniparser.py:63-93 | one turn of the loop: which events it emits, which assignment is open after it, and when it is an error |
| LineForms.BlankIff | oslo_config/iniparser.py:65-70 | a line is blank exactly when it has nothing but blanks, tabs, line ends and the two other ASCII spaces |
| LineForms.ContinuationForm | oslo_config/iniparser.py:71-77 | one that begins with a blank or a tab continues an assignment with its text, outer white space off |
| LineForms.HeaderForm | oslo_config/iniparser.py:34-40 | brackets around a name make a section header, brackets around nothing an error |
| LineForms.OpenHeader | oslo_config/iniparser.py:34-36 | a bracket that is not closed at the end of the line is an error |
| LineForms.CommentForm | oslo_config/iniparser.py:88-89 | a number sign or a semicolon makes a comment of the stripped text behind it |
| LineForms.KeyForm | oslo_config/iniparser.py:42-56 | any other line assigns to the stripped text before its first colon or equals sign the stripped and unquoted text behind it, and an empty key is an error |
| LineForms.NoAssignment | oslo_config/iniparser.py:42-46 | and is an error without such a sign |
| LineForms.QuotesForm | oslo_config/iniparser.py:53-55 | one pair of single or double quotes goes, also a quote by itself, and nothing else does |
| LineForms.ReadsInPieces | oslo_config/iniparser.py:58-97 | what a file says is what its pieces say in order, cut before any line that does not continue one |
| LineForms.OneLineEvents | oslo_config/iniparser.py:58-97 | what one line says by itself |
| LineForms.AssignmentEvents | oslo_config/iniparser.py:71-97 | a key line and the continuation lines behind it are one assignment of all their texts |
| ConfigFiles.NormalizeIff | oslo_config/cfg.py:674-677 | two section names normalise alike exactly when they are in lower case, except that DEFAULT is only ever itself |
| SectionForms.OneSectionIff | oslo_config/cfg.py:674-677 | which is: when they differ in nothing but the size of ASCII letters |
| ConfigFiles.MatchingIgnoresCase | oslo_config/cfg.py:1668-1688 | the normalised map of a file finds the assignments of every spelling of a section |
| ConfigFiles.ConfigParser.Assign | oslo_config/cfg.py:1676-1688 | appends to both maps as a replay does, or is refused without effect before the first section |
| ConfigFiles.ConfigParser.ParseLines | oslo_config/cfg.py:1664-1688 | succeeds exactly on readable files, and leaves both maps equal to a replay of the file's assignments |
| SectionForms.AssignmentAdds | oslo_config/cfg.py:1668-1688 | an assignment goes to the section of the last header, its texts joined by line feeds |
| SectionForms.OthersAddNothing | oslo_config/cfg.py:1668-1674 | headers and comments assign nothing |
| SectionForms.OneAssignment | oslo_config/cfg.py:1664-1688 | a header, a key line and its continuation lines are a readable file with that one assignment |
| SectionForms.NoSectionYet | oslo_config/cfg.py:1676-1678 | a file that begins with an assignment is not readable |
| ConfigFiles.Namespace.AddParsedConfigFile | oslo_config/cfg.py:1913-1921 | inserting at the front makes the file the newest |
| ConfigFiles.Namespace.GetCliValue | oslo_config/cfg.py:1937-1958 | the first name that is set, empty values of positional options passed over |
| ConfigFiles.Namespace.GetFileValue | oslo_config/cfg.py:1960-1993 | the nested search with its early exit finds the first present name of the newest file that defines any, or for multi options the values of all files, oldest first and names in reverse within a file |
| ConfigFiles.Namespace.GetValue | oslo_config/cfg.py:2017-2037 | the command line first, then the files; one value is the last of its list |
| Naming.ValueInFile | oslo_config/cfg.py:859-877 | in one file an option has the last value under the first of its names that the file assigns: its own, then those of its deprecated entries in order, what an entry leaves out being the option's own, and an empty entry none |
| Naming.ValuesInFile | oslo_config/cfg.py:859-877 | a multi-valued one has all of them, those under its own name last |
| Naming.NamesExactly | oslo_config/cfg.py:866-872 | the names are these and no others |
| Naming.CommandLineFirst | oslo_config/cfg.py:1937-1958 | what was given on the command line under the first such name comes before all files, empty values of positional options aside |
| Naming.PlaceShared | oslo_config/cfg.py:1947-1950 | an option of a group finds there the value of the option of DEFAULT named after both, and the other way round |
| ConfigFiles.OneNameReplay | oslo_config/cfg.py:1960-1993 | with one name the search is a replay of all files in parse order: the whole list of matching assignments, or a list that ends with the last |
| ConfigFiles.SingleNameReplay | oslo_config/cfg.py:1971-1993 | the same through the normalised maps, whatever the case of the section |
| CommandLine.LastSourceWins | oslo_config/cfg.py:1864-1911 | for an option with one value some source is the last to set it, and its value is final |
| CommandLine.AllSourcesInOrder | oslo_config/cfg.py:1864-1911 | a multi-valued option ends with the values of all sources in order |
| CommandLine.LookupIsFinal | oslo_config/cfg.py:859-886 | a lookup in the gathered namespace finds the final value |
| CommandLine.Gatherer.ParseCliOptsFromConfigFile | oslo_config/cfg.py:1864-1911 | a file's values for command-line options count as if given at that point |
| CommandLine.Gatherer.ParseFile | oslo_config/cfg.py:1698-1724 | adds a readable file as one more source, records one that is not found |
| CommandLine.Gatherer.ParseArg | oslo_config/cfg.py:1484-1494 | an option argument, a `--config-file` or a `--config-dir` is expanded in place |
| CommandLine.ParseConfigFiles | oslo_config/cfg.py:2866-2885 | succeeds exactly when every file that is found can be read and every argument is known; the namespace then has the files in order, names those that were not found, and answers every command-line option by its final value over default files and arguments left to right |
| Arguments.SetLast | oslo_config/cfg.py:1864-1911 | an option set on the command line has that value, or has it after all others if it has many, and no other option changes |
| Arguments.FileLast | oslo_config/cfg.py:1492-1494 | one more `--config-file` does the same for every option that the file has a value for |
| Arguments.DirectoryLast | oslo_config/cfg.py:1546-1549 | and so does one more file of a `--config-dir` |
| Arguments.DefaultsFirst | oslo_config/cfg.py:2874-2880 | default files come before all arguments exactly if no `--config-file` is given, and are not read otherwise |
| Arguments.SourcesSay | oslo_config/cfg.py:2878-2879 | and are read in order |
| Arguments.ReadableIff | oslo_config/cfg.py:2874-2885 | every file that is tried and found has to be readable |
| Arguments.MissingIff | oslo_config/cfg.py:1698-1724 | a path is reported exactly when it was tried and not found |
| Arguments.KnownIff | oslo_config/cfg.py:2881 | an argument has to set an option that there is |
| Arguments.DistinctMore | oslo_config/cfg.py:1900-1911 | options are told apart by the attribute they are kept in |
| Template.TokensPlain | oslo_config/cfg.py:2750-2758 | a text without dollar signs stands for itself |
| Template.EscapeRoundTrip | oslo_config/cfg.py:2750-2758 | a text escaped with `\$` has no references and is substituted by the text it was made from |
| Template.LongestName | oslo_config/cfg.py:2767-2768 | a dollar sign refers to the longest text behind it that begins with a letter or underscore and goes on with letters, digits, underscores and dots |
| Template.BracedName | oslo_config/cfg.py:2767-2768 | in braces such a name ends at the brace |
| Template.WrittenDollar | oslo_config/cfg.py:2750-2758 | `$$` and `\$` stand for a dollar sign |
| Template.LoneDollar | oslo_config/cfg.py:2755-2768 | so does one before any other character |
| Template.DollarBrace | oslo_config/cfg.py:2755-2768 | and one before a brace that encloses no name |
| Template.OtherCharacter | oslo_config/cfg.py:2755-2758 | every other character stands for itself |
| Template.BracedReference | oslo_config/cfg.py:2755-2768 | a name in braces after a dollar sign is one reference |
| Registry.EvalMore | oslo_config/cfg.py:2676-2768 | more depth never changes an answer that was found |
| Registry.AcyclicEnds | oslo_config/cfg.py:2676-2768 | where the references of the values in use, group first and then DEFAULT, have no cycle every lookup ends, at a depth its rank bounds |
| Registry.SameEval | oslo_config/cfg.py:2676-2732 | two registries that agree wherever a lookup goes give it the same answer |
| Storing.RecordedCache | oslo_config/cfg.py:2662-2732 | a lookup that asks nothing of the cache keeps a right cache right exactly when every option it comes to look up has, in the namespace it is asked for, the value that is in effect |
| Storing.WrittenCache | oslo_config/cfg.py:2662-2674 | what was cached for a namespace given by name is right exactly when every option written has its value there in effect as well |
| Storing.NamedEval | oslo_config/cfg.py:2698-2732 | a lookup in a namespace given by name does not depend on the namespaces that are installed, where overrides and set defaults are no templates |
| Storing.ReadsAlike | oslo_config/cfg.py:2702-2705 | an option that reads a namespace anyway has in effect the value it has there |
| Storing.SettledHarmless | oslo_config/cfg.py:2702-2711 | without a mutable namespace no lookup can come to find anything but what is in effect |
| Layers.DottedReference | oslo_config/cfg.py:3139-3154 | a template that is one dotted reference, braced or not, stands in any context for what the option of that group shows, and is an error about the group if there is none |
| Lookups.UndottedReference | oslo_config/cfg.py:3133-3154 | a reference without a dot stands for the shown value of that option of the text's group, or if the group lacks it of DEFAULT; a group and every other error are errors |
| Lookups.DottedReferenceInFull | oslo_config/cfg.py:3139-3154 | one with a dot for that of the option behind its first dot in the group before it, or if the group lacks it of the whole name in DEFAULT |
| Lookups.TokensInPieces | oslo_config/cfg.py:2755-2758 | a text is substituted piece by piece up to the first error |
| Lookups.ItemsInOrder | oslo_config/cfg.py:2746-2748 | and a list item by item |
| Lookups.ConvertedValue | oslo_config/cfg.py:2770-2783 | each item of a multi-valued option is converted, any other value as a whole, and one failure is a failure |
| Lookups.WhatIsThere | oslo_config/cfg.py:2687-2690 | a group's name gives the group; a missing group and a missing option are different errors |
| Lookups.ValueFromNamespace | oslo_config/cfg.py:2698-2715 | a value of the namespace asked for, else the mutable one for a mutable option, else the main one is substituted in the option's group and there, and then converted, with its errors made errors of the file |
| Lookups.RawIs | oslo_config/cfg.py:2032-2037 | a value of files is one text, or a list of them |
| Lookups.SettingUsed | oslo_config/cfg.py:2695-2718 | an override before that, and a set default after it, are substituted outside any group and namespace and not converted |
| Lookups.DefaultUsed | oslo_config/cfg.py:2720-2732 | the declared default comes last, substituted and converted as a value of the namespace |
| Layers.SetThenGet | oslo_config/cfg.py:2695-2732 | an override that was set is what a lookup gives, whatever files and defaults say; a default that was set is where neither an override nor the namespace has a value, and never where there is an override |
| Layers.ClearUndoesSet | oslo_config/cfg.py:2470-2539 | clearing an override or a default of an option that had none before it was set gives back the registry |
| Layers.UnregisterUndoesRegister | oslo_config/cfg.py:2320-2425 | unregistering a new option of a group that was there gives back the registry exactly when it finds no other entry in the list of command-line options first |
| ConfigEngine.ConfigOpts.Get | oslo_config/cfg.py:2662-2674 | from a right cache, where the lookup can come to find nothing but what is in effect, the answer is that of an uncached lookup and the cache stays right; and where it asks nothing of the cache it has that answer whatever the cache is, and leaves in it exactly what it came to look up |
| ConfigEngine.ConfigOpts.DoGet | oslo_config/cfg.py:2676-2732 | the same for the layers below the cache |
| ConfigEngine.ConfigOpts.GetLayered | oslo_config/cfg.py:2695-2732 | override, namespace, set default, declared default, each substituted and converted in its own context |
| ConfigEngine.ConfigOpts.SubstituteValue | oslo_config/cfg.py:2734-2768 | substitution of texts and lists agrees with the uncached one, and keeps the cache right or writes to it exactly what it looks up, under the same conditions |
| ConfigEngine.ConfigOpts.SafeSubstitute | oslo_config/cfg.py:2755-2758 | the same token by token |
| ConfigEngine.ConfigOpts.GetItem | oslo_config/cfg.py:3133-3154 | the same for a reference, looked up in its group first and then whole in DEFAULT |
| ConfigEngine.ConfigOpts.RegisterOpt | oslo_config/cfg.py:2312-2356 | the new registry with its list of command-line options, the refusals and what they leave, and an empty cache exactly when it returns normally |
| ConfigEngine.ConfigOpts.UnregisterOpt | oslo_config/cfg.py:2401-2425 | the same for removal, refused once arguments were parsed, or when the entry found first has no group to compare with |
| Settings.RegisterInFull | oslo_config/cfg.py:2320-2356 | an option is refused under one of five names of DEFAULT or in the place of another, and otherwise is there, as it was or without settings, and nothing else changes |
| Settings.ListAfterRegister | oslo_config/cfg.py:2312-2318 | a positional option goes to the end of the list of command-line options, any other to its front, each once |
| Settings.UnregisterInFull | oslo_config/cfg.py:2401-2425 | an option that was unregistered is gone, and nothing else |
| Settings.ListAfterUnregister | oslo_config/cfg.py:2412-2420 | and so is the first entry of that name that is not of another group, or the call is refused if that is one of DEFAULT and a group was given |
| ConfigEngine.ConfigOpts.Change | oslo_config/cfg.py:2470-2539 | the same for setting and clearing overrides and defaults |
| Settings.SetInFull | oslo_config/cfg.py:2470-2512 | just the override or the set default of that option changes, to the value or what it converts to if its type is enforced |
| Settings.ClearInFull | oslo_config/cfg.py:2514-2539 | just that goes |
| ConfigEngine.ConfigOpts.RegisterGroup | oslo_config/cfg.py:2388-2399 | adds the empty group without clearing the cache, which stays coherent exactly when the group was there or no cached value's lookup comes by its name |
| Visiting.EvalWithGroup | oslo_config/cfg.py:2676-2732 | a lookup that does not come by the name of a new group keeps its answer, unless it was about the missing group; one that does gives an error, or at the very name the group |
| ConfigEngine.GroupKeepsAnswer | oslo_config/cfg.py:2388-2399 | a value found before is found with the new group exactly when its lookup does not come by the group's name, an option of that name whose value is the group itself aside |
| ConfigEngine.GroupKeepsCache | oslo_config/cfg.py:2388-2399 | the same for all cached values at once |
| ConfigEngine.UnmentionedKeeps | oslo_config/cfg.py:2388-2399 | which no value's lookup does when no option has the group's name and no value in use refers to it |
| ConfigEngine.NewGroupEval | oslo_config/cfg.py:2388-2399 | an empty group that nothing mentions changes no lookup |
| ConfigEngine.ConfigOpts.ValidateCliOptions | oslo_config/cfg.py:2887-2903 | goes through the command-line options by name up to the first value that cannot be substituted or converted, and leaves in the cache exactly what substituting them came to look up, that one included |
| ConfigEngine.AllValidIff | oslo_config/cfg.py:2887-2903 | it finds no fault exactly when every single option has none, whatever the order |
| Settings.FirstFaultByName | oslo_config/cfg.py:2888-2903 | it ends at the faulty option whose name comes first, with that fault |
| ConfigEngine.ConfigOpts.CheckRequiredOpts | oslo_config/cfg.py:2832-2846 | however it ends, the cache has what the required options looked up so far came to look up in the new files; it passes exactly when every required option has a value there, and otherwise names one that has none or gives the error of one that fails |
| ConfigEngine.ConfigOpts.LoadConfigFiles | oslo_config/cfg.py:2905-2913 | ends with the first fault of validation, then the files that were not found, then a required option that is not given, or with the new namespace; the cache has exactly what was looked up until then |
| ConfigEngine.LoadsIff | oslo_config/cfg.py:2905-2913 | it succeeds exactly when no file is missing, all values of command-line options are valid and all required options are given |
| Settings.AcceptedInFull | oslo_config/cfg.py:2832-2913 | said of the registered options and the values files have for them |
| ConfigEngine.ConfigOpts.ReloadConfigFiles | oslo_config/cfg.py:2915-2934 | replaces the namespace exactly when the files are accepted in this sense, with an empty cache unless something it does not catch is raised; then the cache stays right exactly when all that was looked up has in the files the value in effect |
| ConfigEngine.ConfigOpts.DiffNs | oslo_config/cfg.py:3005-3028 | holds exactly the mutable options whose raw value differs, each with both values |
| ConfigEngine.DiffReports | oslo_config/cfg.py:3005-3028 | with distinct names an option is in a diff, under its group and name, exactly when it is mutable and has different raw values, and then with these; so no immutable option is |
| ConfigEngine.ConfigOpts.MutateConfigFiles | oslo_config/cfg.py:2945-2979 | the new mutable namespace and a diff of exactly the mutable options with other values exactly when the files are accepted, else no change of the registry; in either case the cache is right afterwards exactly when all that validation and the required options looked up has in the new files the value in effect, which after a success mutable options do |
| ConfigEngine.LoadedCache | oslo_config/cfg.py:2945-2979 | the same condition, stated on registries |
| ConfigEngine.MutableAlike | oslo_config/cfg.py:2702-2711 | after a success mutable options have in effect the values of the new files |
| ConfigRuns.CorrectIsEval | oslo_config/cfg.py:2662-2732 | a correct answer is the uncached one wherever that one does not run into the recursion limit |
| ConfigRuns.OneAnswer | oslo_config/cfg.py:2734-2768 | without reference cycles a lookup has one answer, whatever was looked up before |
| ConfigRuns.Do | oslo_config/cfg.py:2189-2674 | every operation, registering groups and mutating included, does to the registry what it does without a cache, and looks up as if nothing were cached when the cache is right |
| ConfigRuns.StaysSound | oslo_config/cfg.py:2189-2674 | what makes a right cache wrong: a reload that raises what it does not handle, a new group by whose name a cached value's lookup comes, a mutation or a lookup that looks something up of which another value is in effect; nothing else does, and all but the first always do where settings are no templates |
| ConfigRuns.ClearsSound | oslo_config/cfg.py:2189-2199 | whatever came before, the cache is right after an operation that clears it |
| ConfigRuns.AllAnswerable | oslo_config/cfg.py:2698-2711 | the lookups that runs speak of are all lookups if there is no mutable namespace, or if no override and no set default is a template |
| ConfigRuns.RunAnswers | oslo_config/cfg.py:2189-2674 | from any moment of a run with a right cache, every lookup is answered as if nothing were cached until something breaks |
| ConfigRuns.Run | oslo_config/cfg.py:2189-2674 | over every run of registering options and groups, unregistering, overriding, defaulting, clearing, reloading, mutating and looking up, every lookup before something breaks the cache is answered as if nothing were cached |
| ConfigLimits.SelfReference | oslo_config/cfg.py:2734-2768 | a default that refers to itself is resolved at no depth |
| ConfigLimits.GroupNamedLikeOption | oslo_config/cfg.py:2388-2399 | a group registered under the name of an option makes the option's cached value wrong |
| ConfigLimits.GroupMentionedBySwallowedReference | oslo_config/cfg.py:3133-3154 | so does a group whose name a reference mentions, through the fallback to DEFAULT |
| ConfigLimits.FallbackAcyclic | oslo_config/cfg.py:3133-3154 | a registry with references and a fallback that has no cycle |
| ConfigLimits.RequiredOptionLeaks | oslo_config/cfg.py:2956-2960 | a mutation can leave the new value of an immutable option in the cache |
| ConfigLimits.RejectedMutationLeaks | oslo_config/cfg.py:2956-2959 | a refused mutation can leave None in the cache for an option that has a value, mutable or not |
| ConfigLimits.ValidationLeaks | oslo_config/cfg.py:2887-2903 | an accepted mutation with nothing required caches the new value of an immutable option that the new value of a command-line option refers to, even if the latter is overridden |
| ConfigLimits.RefusedValidationLeaks | oslo_config/cfg.py:2887-2903 | so does a mutation that is refused because the same value also refers to a name nobody registered |
| ConfigLimits.NamespacesMix | oslo_config/cfg.py:2698-2711 | with a mutable namespace, looking up an immutable option caches the old value of a mutable one that it refers to |
| ConfigLimits.TemplateOverrideFollows | oslo_config/cfg.py:2695-2696 | an immutable option whose override is a template follows the mutable namespace |
| ConfigLimits.EntryOfAnother | oslo_config/cfg.py:2413-2420 | registering and unregistering an option of DEFAULT takes the option of a group with its name off the command line |
| ConfigLimits.NamesPerGroup | oslo_config/cfg.py:3005-3028 | options of one name in DEFAULT and a group are told apart in a diff |
| Mutation.MutateAll | oslo_config/cfg.py:2945-2979 | the diffs of a run of mutations, failed ones included, lead from the namespace in effect at its start to the one in effect at its end, and each reports exactly the mutable options with other values |
| Mutation.DiffsTelescope | oslo_config/cfg.py:2945-2979 | replaying the diffs of a run gives every mutable option its present raw value |
| Mutation.DiffsChain | oslo_config/cfg.py:2945-2979 | the old value in each diff is what the diffs before it lead to |
| Mutation.ImmutableKeepsValue | oslo_config/cfg.py:2702-2711 | however often the mutable namespace is replaced, an immutable option keeps its uncached value, also through references to mutable options, when no override or set default in use is a template |
| Reloading.ReloadFrom | oslo_config/cfg.py:2866-2934 | from arguments and the text of files: the namespace is replaced exactly when all can be read and is known, nothing is missing, and values and required options are good; the cache is right then |
| Reloading.MutateFrom | oslo_config/cfg.py:2866-2979 | the same for the mutable namespace |
| Reloading.LastSourceIsLookedUp | oslo_config/cfg.py:2662-2732 | in a namespace installed so, a command-line option looks up to the converted value of the last source that set it |
| Segments.CutUnique | oslo_config/types.py:457-476 | there is one way only to cut comma pieces into accepted groups without accepted proper beginnings and a rest without an accepted beginning |
| Segments.CutExists | oslo_config/types.py:457-476 | and there always is one |
| Segments.Rejoined | oslo_config/types.py:457-476 | the groups joined again are the text |
| ListType.Call | oslo_config/types.py:441-476 | the nested loops return the values of the groups of that cut, or the error for its rest |
| ListType.ParsesOnce | oslo_config/types.py:441-476 | which determines the result |
| ListType.FailsIffStuck | oslo_config/types.py:457-476 | the parse fails exactly when some tail of the pieces, reached group by group, has no accepted beginning |
| ListType.GroupsMakeText | oslo_config/types.py:457-476 | nothing of the text is lost or used twice |
| ListType.RoundTrip | oslo_config/types.py:441-490 | a list of clean items the item type leaves alone comes back from its printed form exactly when it is not the list of one empty text |
| ListType.PlainRoundTripIff | oslo_config/types.py:441-490 | with the default item type exactly the lists of stripped, comma-free items come back, the list of one empty text excepted |
| DictType.DictCall | oslo_config/types.py:522-574 | the nested loops return the pairs of the cut as a map, the first fault of the keys, or the error for the rest |
| DictType.DictParsesOnce | oslo_config/types.py:522-574 | which determines the result |
| DictType.NoFaultIff | oslo_config/types.py:566-570 | no key is at fault exactly when all are non-empty and distinct |
| DictType.KeysOfResult | oslo_config/types.py:522-574 | a result has distinct, non-empty, stripped keys without a colon, one for each group |
| DictType.DictRoundTrip | oslo_config/types.py:522-588 | a dictionary comes back from its printed form, in any order of items, when keys are stripped, non-empty and colon-free and values stripped, comma-free and left alone by the value type |
| DictType.PlainDictRoundTripIff | oslo_config/types.py:522-588 | with the default value type these are exactly the dictionaries that come back |
| StringType.CallIdempotent | oslo_config/types.py:126-155 | an accepted value is accepted again as it is, unless it begins with a quote of its own |
| StringType.AcceptedAs | oslo_config/types.py:126-155 | what is accepted and as what: quotes of one kind off, no longer than the limit, matching, and one of the choices up to the size of letters if that does not count |
| StringType.QuotedListIff | oslo_config/types.py:126-132 | texts without a double quote, each in quotes, come back from a list of quoted strings exactly when none begins, white space aside, with a comma |
| Generator.OptFormatter.FormatHelp | oslo_config/generator.py:145-163 | every line of the help wrapped on its own |
| Generator.OptFormatter.FormatGroup | oslo_config/generator.py:172-185 | the section header and the group's help |
| Generator.OptFormatter.Format | oslo_config/generator.py:187-288 | the remarks of an option and one line for each default |
| Generator.HelpIs | oslo_config/generator.py:195-207 | the help with its prefix and the name of the type |
| Generator.LimitsAre | oslo_config/generator.py:209-224 | least and greatest value, choices, and that the option can be changed at run time |
| Generator.ChoicesText | oslo_config/generator.py:165-170 | the choices in order, None and the empty text spelled out |
| Generator.FormersAre | oslo_config/generator.py:244-246 | the former names |
| Generator.RemovalIs | oslo_config/generator.py:248-260 | the removal, since when and why |
| Generator.AdvancedIs | oslo_config/generator.py:262-267 | the remark for advanced users |
| Generator.DefaultsInFull | oslo_config/types.py:39-57 | the defaults as text |
| Generator.FailureIs | oslo_config/generator.py:406-409 | the warning in place of an option whose formatting fails |
| Generator.OptFormatter.OutputOpts | oslo_config/generator.py:394-409 | namespaces by name, advanced options last, optional ones left out of a minimal sample, and a warning for an option that cannot be formatted |
| Generator.AdvancedOrder | oslo_config/generator.py:399 | advanced options come last, and nothing else changes in the order |
| Generator.NamespacesInOrder | oslo_config/generator.py:396-397 | namespaces are all there, by name |
| Generator.OptFormatter.Generate | oslo_config/generator.py:464-469 | the default group first, then the others by name |
| Generator.GroupsInOrder | oslo_config/generator.py:464-469 | all groups are there, the default one first and the others by name |
| Sorting.SortedByName | oslo_config/generator.py:396-397 | the sort by name is in order, keeps every element as often as it was there, and keeps those of one name in their order |
| Sorting.NotAfterIff | oslo_config/generator.py:396-397 | the order of names is that of their first different characters, a beginning before the whole |
| Generator.LinesComeBack | oslo_config/generator.py:290-302 | what is written line by line is read as the same lines, split where a line has a line feed of its own |
| Generator.LastLine | oslo_config/generator.py:145-163 | what follows the last line feed is a line too, unless it is empty |
| SampleReading.SaysAllReadings | oslo_config/iniparser.py:58-97 | a file without continuation lines has one reading, a block for every line |
| SampleReading.CountReading | oslo_config/iniparser.py:58-97 | every reading of a file makes as many handler calls, comments aside, as the file has header and key lines |
| SampleReading.QuietTells | oslo_config/iniparser.py:58-97 | lines after a comment either all say nothing, or the file is refused or makes more calls than without them |
| SampleFiles.DefaultLineSays | oslo_config/generator.py:280-286 | a printed default is read as its key and the text without outer white space and quotes |
| SampleFiles.SampleParses | oslo_config/generator.py:394-409 | a printed sample is accepted and, comments aside, read as its section headers and, if minimal, one assignment for each default of each required option, in order, exactly when all help in it fits: every physical line of it a comment or blank |
| SampleFiles.HelpFitsWhen | oslo_config/generator.py:145-163 | wrapped help fits, and so does help of one line |
| SampleFiles.UnwrappedHelpLeaks | oslo_config/generator.py:161-163 | unwrapped help with a second line that is neither blank nor a comment makes a sample that is refused or read as more |
| SampleFiles.AssignmentLeaks | oslo_config/generator.py:161-163 | a help text with the line "x = 1" does |
| SampleFiles.FullSampleAssignsNothing | oslo_config/generator.py:280-286 | a sample that is not minimal is read as section headers only |
| SampleFiles.ValueComesBackIff | oslo_config/types.py:51-57 | a value comes back from its printed form exactly when it is not a stripped text between two quotes of one kind |
| SampleFiles.StringDefaultIff | oslo_config/types.py:39-49 | so does a string default |
| SampleFiles.MultiDefaultIff | oslo_config/types.py:189-202 | so does a list of defaults, all of them in order |
| SampleFiles.NoDefaultComesBack | oslo_config/types.py:37-49 | without a default the text "<None>", or one empty value, comes back |
| SampleContents.SampleContent | oslo_config/cfg.py:1664-1688 | a printed sample whose help fits is a readable configuration file whose assignments are exactly the printed defaults, each under its group |
| SampleContents.FullSampleIsEmpty | oslo_config/generator.py:280-286 | a sample that is not minimal is a file without assignments |
| LockUtils.SamePath | oslo_concurrency/lockutils.py:130-143 | two names share a lock file exactly when they differ at most in slashes and underscores |
| LockUtils.LockFileName | oslo_concurrency/lockutils.py:130-143 | the lock file is in the directory, named by the prefix, one hyphen and the name with its slashes made underscores |
| LockUtils.Semaphores.Get | oslo_concurrency/lockutils.py:105-120 | the entry of the table, or a new semaphore that no entry has |
| LockUtils.TableStepsAreGet | oslo_concurrency/lockutils.py:114-120 | what a thread does inside the table's lock is one such call on the table of its process, and leaves the other tables alone |
| LockUtils.CollectIff | oslo_concurrency/lockutils.py:93-96 | an entry can be collected exactly while no frame of the process has its semaphore |
| LockUtils.InvStep | oslo_concurrency/lockutils.py:166-226 | every step of every thread, and every collection, keeps the table guarded, current and injective and every held semaphore held once |
| LockUtils.ThreadsExcludeEachOther | oslo_concurrency/lockutils.py:210-226 | in every interleaving two threads of a process are never inside one lock, and all that have a semaphore for a name have the same one |
| LockUtils.FilesUsedAlways | oslo_concurrency/lockutils.py:215-223 | in every run exactly the bodies of external locks hold their file, none if process locking is disabled, and there are none if there is no lock path |
| LockUtils.FilesOfOthers | oslo_concurrency/lockutils.py:215-221 | a process takes and gives up no lock file but its own, and gives up the one it held when it leaves the body |
| LockUtils.ProcessesExcludeEachOther | oslo_concurrency/lockutils.py:210-221 | nor two threads of any processes inside one external lock, when no two names in use share a lock file and process locking is not disabled |
| LockUtils.SharedPathBreaks | oslo_concurrency/lockutils.py:197-221 | two names with one lock file are enough to break it |
| LockUtils.DisabledBreaks | oslo_concurrency/lockutils.py:215-223 | with process locking disabled one name is enough |
| LockUtils.ExclusionIffPathsDistinct | oslo_concurrency/lockutils.py:210-221 | external locks exclude in every run exactly when no two names in use share a lock file, or there is no lock path so that nobody comes in, and process locking is not disabled |
| LockUtils.LockPathsDistinct | oslo_concurrency/lockutils.py:130-143 | with the lock paths of the code: when no two names differ in slashes and underscores only |
| LockUtils.NeverDeadlocks | oslo_concurrency/lockutils.py:210-226 | in every reachable state with a call under way some call can go on |
| KeystoneSession.Session.SendRequest | keystoneauth1/session.py:598-681 | sends the requests up to the first that cannot go on, each to the right address, with the doubled and reset sleeps between them in order, and returns that reply with the followed replies as its history, or that failure |
| KeystoneSession.OneCall | keystoneauth1/session.py:598-681 | a reply with status 301, 302, 303, 305, 307 or 308 and a location is followed while redirects are left, with the rest of the call a call to that location; a timeout or refused connection is retried while retries are left, with a doubled delay; everything else ends the call |
| KeystoneSession.Session.Request | keystoneauth1/session.py:577-596 | a second call with the new headers exactly after a 401 for an authenticated request whose plugin dropped its token and has another, never a third; at most 2(1 + redirects + retries) requests |
| KeystoneSession.Bounded | keystoneauth1/session.py:598-681 | on every network a call ends after at most 1 + redirects + retries requests, with at most that many redirects followed and failures retried, retries spent before a redirect included |
| KeystoneSession.StopsOnce | keystoneauth1/session.py:598-681 | where it ends is determined by the network and the budgets |
| KeystoneSession.HistoryIsFollowed | keystoneauth1/session.py:668-679 | the history lists every followed redirect once, in order, and nothing else |
| KeystoneSession.TotalSleep | keystoneauth1/session.py:635-647 | the total sleep is at most 0.5 (2^retries - 1), although the delay is reset by redirects |
| KeystoneSession.BoundsReached | keystoneauth1/session.py:635-647 | a network that never connects reaches both bounds |
| SafeTruncate.DecodesIff | nova/utils.py:1258-1262 | strict decoding of UTF-8, section 3 of RFC 3629, accepts exactly the encodings, each for its own text |
| SafeTruncate.DecodePrefix | nova/utils.py:1258-1264 | the first bytes of a text decode exactly when they end with a character, and then to the characters in them |
| SafeTruncate.SafeTruncate | nova/utils.py:1249-1266 | the attempts to decode, with one more byte dropped each time, find what the encoding of standard input, UTF-8 after it, makes of the kept bytes; if that encoding reads whole characters only, the longest prefix of the text that fits, with at most three bytes dropped after it, negative lengths included |
| SafeTruncate.RightIffReadsWhole | oslo_utils/encodeutils.py:44-63 | the result is that prefix for all texts and lengths exactly when the encoding of standard input decodes the beginnings of a text in UTF-8, where it does, to its characters |
| SafeTruncate.Utf8ReadsWhole | oslo_utils/encodeutils.py:44-63 | UTF-8 does |
| SafeTruncate.AsciiReadsWhole | oslo_utils/encodeutils.py:44-63 | so does ASCII |
| SafeTruncate.Latin1Breaks | oslo_utils/encodeutils.py:44-63 | Latin-1 does not, at a single accented letter |
| SafeTruncate.TruncatedOnce | nova/utils.py:1249-1266 | which is one text only |
| SafeTruncate.Idempotent | nova/utils.py:1249-1266 | truncating again to the same length changes nothing |
| SafeTruncate.NegativeLengthShrinks | nova/utils.py:1253 | a negative length cuts again every time |
| AuditPeriod.MinusDayOrdinal | nova/utils.py:413-426 | a day less is one ordinal less, over month ends, leap days and year ends |
| Calendar.ValidIff | nova/utils.py:373-428 | which numbers make a date and time, by the lengths of months and the Gregorian rule |
| Calendar.OrdinalIs | nova/utils.py:413-426 | the number of a day, by the days before its month |
| Calendar.BeforeIff | nova/utils.py:413-426 | the order of instants is that of the microseconds up to them |
| AuditPeriod.LastCompletedAuditPeriod | nova/utils.py:339-428 | the end is the greatest boundary strictly before the instant and the beginning the boundary just below; with a legal offset it fails only where year 1 leaves no such period |
| Calendar.BoundaryIff | nova/utils.py:339-352 | where the periods of each unit begin, with an offset and without |
| Calendar.PeriodLength | nova/utils.py:413-426 | hourly and daily periods are an hour and a day long |
| AuditPeriod.PeriodsTile | nova/utils.py:355-358 | asking again at the end of a period gives the period before it |
| AuditPeriod.PeriodsCover | nova/utils.py:356-358 | over any run of such calls every instant between the first and the last period lies in exactly one of them |
| AuditPeriod.SamePeriod | nova/utils.py:355-358 | the period stays the same until the next boundary is passed |
| AuditPeriod.MonthPeriod | nova/utils.py:373-395 | fails exactly when a month the period reaches into does not have the day |
| Calendar.MonthsHaveDayIff | nova/utils.py:373-395 | which months these are |
| AuditPeriod.MonthDayIff | nova/utils.py:373-395 | works at every instant, the first year aside, exactly for days up to 28 |
| Quota.Precedence | nova/quota.py:117-124 | for a user: user, project, class of the context, default class, resource |
| Quota.ProjectPrecedence | nova/quota.py:117-124 | for a project the same without the user |
| Quota.ClassThenRow | nova/quota.py:104-124 | the context's own project has the class of the context, whatever class was asked for, and any other project that class |
| Quota.OwnRowFound | nova/quota.py:148-193 | the limits of a user are those of the rows for user and project |
| Quota.ProcessQuotas | nova/quota.py:100-146 | limit, usage and what remains of every resource asked for |
| Quota.GetUserQuotas | nova/quota.py:148-193 | the same for a user, with the project's limits where the user has none |
| Quota.GetProjectQuotas | nova/quota.py:195-229 | the same for a project |
| Quota.GetSettableQuotas | nova/quota.py:255-292 | the range of every resource, for a user or for the project |
| Quota.UserRangeInFull | nova/quota.py:231-284 | a user's range goes from what is used and reserved to what the project has left and the user has, or has no bound where one of these is negative |
| Quota.ProjectRangeInFull | nova/quota.py:285-291 | a project's goes from what its users were given, or what is used and reserved if that is more |
| Quota.RangesAndClasses | nova/quota.py:104-124 | ranges of another project than the context's depend on no class, those of its own on the context's |
| Quota.GetQuotas | nova/quota.py:321-377 | the resolved limits of the keys, or exactly the unknown ones |
| Quota.LimitCheck | nova/quota.py:379-444 | passes exactly when every value is of a checkable resource without sync function, not negative, and within both resolved limits; otherwise names exactly the offending resources |
| Quota.CheckInFull | nova/quota.py:407-435 | when a check passes, said of resources, values and the two limits |
| Quota.HeadroomUsableIff | nova/quota.py:434-442 | asking for the reported headroom would pass exactly when it is a limit and the user's is not below it, and then less was asked for than refused |
| Quota.HeadroomMisleads | nova/quota.py:434-442 | a user is refused with a headroom that would be refused as well |
| QuotaConservation.ChangeConserves | nova/quota.py:237-292 | a change within the range reported at that moment keeps what the users were given, and what is used, within the project's limit |
| QuotaConservation.RunConserves | nova/quota.py:237-292 | so does every run of such changes, of any users and projects |
| QuotaConservation.SumIsGivenIff | nova/quota.py:139-144 | the sum the code subtracts is never more than what the users were given, and equal to it exactly when none is unlimited |
| QuotaConservation.UserRangeIff | nova/quota.py:237-253 | every value in a user's range keeps what the users are given within the project's limit exactly when that is unlimited, or what the project has left and the user's own limit are not negative and either no user of the project is unlimited or the range is empty |
| QuotaConservation.ProjectRangeIff | nova/quota.py:285-291 | every project limit in the range covers what its users were given exactly when the project is limited, has something not negative left and no unlimited user, or its usage covers what they were given anyway |
| QuotaConservation.UnlimitedRowOvercounts | nova/quota.py:139-144 | an unlimited user makes the range of another exceed the project's limit |

## Left out

- ConfigFiles.ConfigParser.ParseLines: the events of a file are replayed into the section maps after the parse, so for a file with both a syntax error and an assignment before any section only the existence of an error is modelled, not which of the two is reported.
- CommandLine.ParseConfigFiles: stops before the validation, which needs the cache and is `ConfigEngine.ConfigOpts.ValidateCliOptions`; files that may not be read are not modelled.
- ConfigEngine.ConfigOpts.ValidateCliOptions: says nothing of an override or a set default that is a template and that the lookups come to use.
- ConfigEngine.ConfigOpts.CheckRequiredOpts: the same, since substituting such a setting asks for no namespace and so reads the cache that the lookups before it have written.
- ConfigEngine.ConfigOpts.ReloadConfigFiles: the outcome is stated under the same condition.
- ConfigEngine.ConfigOpts.MutateConfigFiles: asks for an installed namespace, without which the code fails in the diff; outcome and cache are stated under the same condition.
- Mutation.ImmutableKeepsValue: asks for overrides and set defaults in use without references, because these are substituted without the namespace and so see the mutable one, as `ConfigLimits.TemplateOverrideFollows` shows.
- ConfigEngine.ConfigOpts.RegisterGroup: a group object that is used with another `ConfigOpts` as well shares its options with it, and does not arrive empty.
- ConfigRuns.Run: asks for an installed namespace if it mutates; after something broke the cache, and before an operation that clears it, what a lookup gives is not stated, nor, with a mutable namespace, for a lookup that is not harmless and comes to use a template among overrides and set defaults.
- Generator.OptFormatter.Format: defaults are strings or lists of strings.
- SampleContents.SampleContent: asks for help that fits; what becomes of other help is `SampleFiles.SampleParses`.
- Reloading.ReloadFrom: asks for command-line options of distinct names, none of them positional.
- KeystoneSession.Session.SendRequest: budgets are integers; `redirect=True` has no bound.
- LockUtils.NeverDeadlocks: calls are not nested.
- DictType.DictRoundTrip: holds for every order of the items, so the sort of `_formatter` is not modelled.
- SafeTruncate.SafeTruncate: the text is already unicode; `safe_truncate` of bytes, whose encoding is guessed in the same way, is not modelled.
- Lookups nested deeper than the depth budget, which stands for Python's recursion limit.
- argparse itself, positional options, sub-commands, the `config_file` and `config_dir` values, missing `--config-dir` directories, and permission errors.
- Dictionary-valued options in templates, multi-valued options whose default is one string, non-ASCII identifiers in templates.
- `register_opts` and the other bulk calls, `register_cli_opt`, `import_opt`, `clear`, the first call of the object, the immutability warnings and the mutate hooks.
- Boolean, Number, IPAddress, URI and Hostname types, `MultiString` outside the generator, and values that are already lists or dictionaries.
- Defaults of other types than strings in samples, and the best-effort formatter for foreign option classes.
- White space other than ASCII in `strip`, line separators other than the line feed, and lower-casing other than ASCII.
- `remove_external_lock_file`, which unlinks the file under the internal lock only, and crashed processes.
- Headers, endpoints, authentication plugins, certificates and logging of the session.
- The default audit period of the configuration, the current time, and offsets that are not integers.
- The database behind the quota driver and its `project_id` and `user_id` entries; `reserve`, `commit` and `rollback`; per-call dictionaries passed in place of database rows.
- File access, clocks, logging and deprecation warnings.
