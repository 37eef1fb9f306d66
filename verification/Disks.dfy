/** The directory the operator works in. Unless it is reliable any access may fail; a failed write may leave
    anything behind under the name it was writing to, but touches no other file. */
module Disks {
  import opened Results

  class Disk {
    var files: map<string, string>

    /** No access to a file that is there goes wrong. */
    const reliable: bool

    method ReadFile(name: string) returns (r: Result<string>)
      ensures r.Ok? ==> name in files && r.value == files[name]
      ensures r.Err? ==> r.error == ReadFailed(name)
      ensures reliable && name in files ==> r.Ok?
    {
      var broken: bool := *;
      if (broken && !reliable) || name !in files {
        return Err(ReadFailed(name));
      }
      r := Ok(files[name]);
    }

    method Stat(name: string) returns (r: Result<()>)
      ensures r.Ok? ==> name in files
      ensures r.Err? ==> r.error == ReadFailed(name)
      ensures reliable && name in files ==> r.Ok?
    {
      var broken: bool := *;
      if (broken && !reliable) || name !in files {
        return Err(ReadFailed(name));
      }
      r := Ok(());
    }

    method WriteFile(name: string, content: string) returns (r: Result<()>)
      modifies this
      ensures r.Ok? ==> files == old(files)[name := content]
      ensures r.Err? ==> r.error == WriteFailed(name) && files - {name} == old(files) - {name}
      ensures reliable ==> r.Ok?
    {
      var broken: bool := *;
      if broken && !reliable {
        var kept: bool := *;
        if !kept {
          var partial: string := *;
          files := files[name := partial];
        }
        return Err(WriteFailed(name));
      }
      files := files[name := content];
      r := Ok(());
    }

    method Remove(name: string) returns (r: Result<()>)
      modifies this
      ensures r.Ok? ==> name in old(files) && files == old(files) - {name}
      ensures r.Err? ==> files == old(files)
      ensures r.Err? ==> r.error == RemoveFailed(name) || (r.error == NotFound(name) && name !in files)
      ensures reliable && name in old(files) ==> r.Ok?
    {
      if name !in files {
        return Err(NotFound(name));
      }
      var broken: bool := *;
      if broken && !reliable {
        return Err(RemoveFailed(name));
      }
      files := files - {name};
      r := Ok(());
    }
  }
}
