/** `ActiveResponseManager`: the in-memory configuration document, the
    global limit taken from it, and the operations that read and update them.
    Reading `ar_limit_conf.yaml` is the `loaded` argument of the constructor,
    reading `ar.conf` is its lines, and each `write_yaml` appends a snapshot of
    the document to `written`. */
module Manager {
  import opened Wrappers
  import opened Config
  import opened ArConf

  class ActiveResponseManager {
    /** `self.yaml_data`. */
    var yamlData: Document
    /** `self.global_limit`. */
    var globalLimit: Value
    /** Every document `write_yaml` has saved, oldest first. */
    var written: seq<Document>

    /** The field `global_limit` agrees with the document (its
        `global-limit`, or 200 without one), the file holds the document last
        written, and a document without the section was never written. */
    ghost predicate Valid()
      reads this
    {
      && globalLimit == GlobalLimitOf(yamlData)
      && (written != [] ==> written[|written| - 1] == yamlData)
      && (yamlData.None? ==> written == [])
    }

    /** `__init__`: load the document, take the global limit from it (200 by
        default), then add the commands of the AR conf file. */
    constructor (loaded: Document, arConf: seq<string>)
      ensures Valid()
      ensures globalLimit == GlobalLimitOf(loaded)
      ensures yamlData == Synced(loaded, Commands(arConf), GlobalLimitOf(loaded))
      ensures written == if loaded.Some? then [yamlData] else []
    {
      yamlData := loaded;
      globalLimit := GlobalLimitOf(loaded);
      written := [];
      new;
      SyncCommands(arConf);
    }

    /** `write_yaml`: save the current document. */
    method WriteYaml()
      modifies this`written
      ensures written == old(written) + [yamlData]
    {
      written := written + [yamlData];
    }

    /** `read_ar_conf`: the commands named by the lines of the AR conf file. */
    method ReadArConf(lines: seq<string>) returns (commands: set<string>)
      ensures commands == Commands(lines)
    {
      commands := {};
      for i := 0 to |lines|
        invariant commands == Collect(lines[..i], LineCommand)
      {
        CollectNext(lines, LineCommand, i);
        match LineCommand(lines[i])
        case Some(command) =>
          commands := commands + {command};
        case None =>
      }
      assert lines[..|lines|] == lines;
    }

    /** `update_yaml_with_new_and_removed_commands`: add each command of the
        AR conf file that `custom-limit` lacks, at the current global limit,
        and write. Without the section the final assignment raises
        `KeyError`, which is caught: the document is not changed and nothing
        is written. */
    method SyncCommands(arConf: seq<string>)
      requires Valid()
      modifies this
      ensures Valid()
      ensures globalLimit == old(globalLimit)
      ensures yamlData == Synced(old(yamlData), Commands(arConf), globalLimit)
      ensures written == if old(yamlData).Some? then old(written) + [yamlData] else old(written)
    {
      var commands := ReadArConf(arConf);
      var customLimits := CustomLimits(yamlData);
      var pending := commands;
      while pending != {}
        invariant pending <= commands
        invariant unchanged(this)
        invariant customLimits == Merged(CustomLimits(yamlData), commands - pending, globalLimit)
        decreases pending
      {
        var command :| command in pending;
        MergedNext(CustomLimits(yamlData), commands - pending, command, globalLimit);
        assert commands - (pending - {command}) == (commands - pending) + {command};
        if command !in customLimits {
          customLimits := customLimits[command := globalLimit];
        }
        pending := pending - {command};
      }
      assert commands - pending == commands;
      match yamlData
      case None =>
      case Some(section) =>
        yamlData := Some(section.(customLimit := Some(customLimits)));
        WriteYaml();
    }

    /** `get_limits`: with a non-empty list, the entries of `custom-limit`
        whose keys occur in the list, values unchanged and unknown names
        dropped; with no list or an empty one, the whole of `custom-limit`. */
    function GetLimits(commandList: Option<seq<string>>): (r: map<string, Value>)
      reads this
      ensures commandList.None? || commandList.value == [] ==> r == CustomLimits(yamlData)
      ensures commandList.Some? && commandList.value != [] ==>
                forall c :: c in r <==> c in commandList.value && c in CustomLimits(yamlData)
      ensures forall c :: c in r ==> c in CustomLimits(yamlData) && r[c] == CustomLimits(yamlData)[c]
    {
      var customLimits := CustomLimits(yamlData);
      match commandList
      case Some(names) =>
        if names != [] then map c | c in names && c in customLimits :: customLimits[c]
        else customLimits
      case None => customLimits
    }

    /** `update_command_limits`: give each command of `newLimits` that is
        already a key of `custom-limit` its new value, skip the others, and
        write, even when no key matched. Without the section the final
        assignment raises `KeyError`, which is caught: the document is not
        changed and nothing is written. */
    method UpdateCommandLimits(newLimits: map<string, Value>)
      requires Valid()
      modifies this
      ensures Valid()
      ensures globalLimit == old(globalLimit)
      ensures yamlData == LimitsUpdated(old(yamlData), newLimits)
      ensures written == if old(yamlData).Some? then old(written) + [yamlData] else old(written)
    {
      var customLimits := CustomLimits(yamlData);
      var pending := newLimits.Keys;
      while pending != {}
        invariant pending <= newLimits.Keys
        invariant unchanged(this)
        invariant customLimits == Overridden(CustomLimits(yamlData), newLimits - pending)
        decreases pending
      {
        var command :| command in pending;
        if command in customLimits {
          customLimits := customLimits[command := newLimits[command]];
        }
        pending := pending - {command};
      }
      assert newLimits - pending == newLimits;
      match yamlData
      case None =>
      case Some(section) =>
        yamlData := Some(section.(customLimit := Some(customLimits)));
        WriteYaml();
    }

    /** `update_global_limit`: set `global-limit` in the document and the
        field `global_limit` to `newGlobalLimit`, then write. Without the
        section the first assignment raises `KeyError`, which is caught:
        neither the document nor the field changes and nothing is written. */
    method UpdateGlobalLimit(newGlobalLimit: Value)
      requires Valid()
      modifies this
      ensures Valid()
      ensures yamlData == GlobalLimitUpdated(old(yamlData), newGlobalLimit)
      ensures globalLimit == if old(yamlData).Some? then newGlobalLimit else old(globalLimit)
      ensures written == if old(yamlData).Some? then old(written) + [yamlData] else old(written)
    {
      match yamlData
      case None =>
      case Some(section) =>
        yamlData := Some(section.(globalLimit := Some(newGlobalLimit)));
        globalLimit := newGlobalLimit;
        WriteYaml();
    }
  }

}
