// The archive reader: Open reads the header and the table of contents, and
// ReadEntry fetches and decompresses one file.
module KarReader {
  import opened ByteStrings
  import opened Seqs
  import opened Wrappers
  import opened KarToc

  const MAGIC: Bytes := [75, 78, 65, 82]

  datatype Decoded = ShortRead | LongName | NegativeLength | Decoded(entry: Entry, next: nat)

  function DecodeEntry(b: Bytes, pos: int): Decoded {
    if pos < 0 || pos + 14 > |b| then ShortRead
    else
      var length := GetInt16(b[pos + 12..pos + 14]);
      if length > 2048 then LongName
      else if length < 0 then NegativeLength
      else if pos + 14 + length > |b| then ShortRead
      else
        var file := KarFile(GetInt32(b[pos..pos + 4]), GetInt32(b[pos + 4..pos + 8]), GetInt32(b[pos + 8..pos + 12]));
        Decoded(Entry(file, b[pos + 14..pos + 14 + length]), pos + 14 + length)
  }

  // The stack of folder names and the items found so far.
  datatype Walk = Walk(stack: seq<Bytes>, items: map<Bytes, KarFile>) | Popped

  function WalkEntry(e: Entry, stack: seq<Bytes>, items: map<Bytes, KarFile>): Walk {
    if e.file.size != 0 then Walk(stack, items[FullPath(stack, e.name) := e.file])
    else if e.file.decSize != 0 then Walk(stack, items)
    else if e.name != UP then Walk(stack + [e.name], items)
    else if stack == [] then Popped
    else Walk(DropLast(stack), items)
  }

  // Done, an error code, or behaviour that C++ does not define: popping an
  // empty stack, or a string of negative length.
  datatype TocResult = Done(items: map<Bytes, KarFile>) | Code(code: int) | Undefined

  function ReadToc(b: Bytes, pos: int, n: nat, stack: seq<Bytes>, items: map<Bytes, KarFile>): TocResult
    decreases n
  {
    if n == 0 then Done(items)
    else
      match DecodeEntry(b, pos)
      case ShortRead => Code(4)
      case LongName => Code(5)
      case NegativeLength => Undefined
      case Decoded(entry, next) =>
        match WalkEntry(entry, stack, items)
        case Walk(stack', items') => ReadToc(b, next, n - 1, stack', items')
        case Popped => Undefined
  }

  function OpenArchive(b: Bytes): TocResult {
    if |b| < 4 then Code(2)
    else if b[..4] != MAGIC then Code(3)
    else if |b| < 16 then Code(2)
    else
      var count := GetInt32(b[12..16]);
      ReadToc(b, GetInt32(b[8..12]), if count < 0 then 0 else count, [], map[])
  }

  datatype Content = Missing | Unreadable | Undecodable | Content(data: Bytes)

  function Decompressed(decompress: Bytes -> Option<Bytes>, file: KarFile, raw: Bytes): Content {
    if file.decSize <= 0 then Content(raw)
    else
      match decompress(raw)
      case Some(data) => if |data| <= file.decSize then Content(data) else Undecodable
      case None => Undecodable
  }

  predicate InFile(b: Bytes, file: KarFile) {
    0 <= file.offset && 0 <= file.size && file.offset + file.size <= |b|
  }

  function EntryContent(b: Bytes, items: map<Bytes, KarFile>, decompress: Bytes -> Option<Bytes>,
                        name: Bytes): Content {
    if name !in items then Missing
    else if !InFile(b, items[name]) then Unreadable
    else Decompressed(decompress, items[name], b[items[name].offset..items[name].offset + items[name].size])
  }

  class KnossosArchive {
    var hdl: Bytes
    var broken: bool
    var items: map<Bytes, KarFile>

    constructor ()
      ensures hdl == [] && !broken && items == map[]
    {
      hdl, broken, items := [], false, map[];
    }

    // The stream's failure flag stays set behind a short read.
    // There may be no file under the name that is given.
    method Open(found: Option<Bytes>) returns (r: TocResult)
      requires items == map[]
      modifies this
      ensures r == match found case None => Code(1) case Some(file) => OpenArchive(file)
      ensures hdl == match found case None => [] case Some(file) => file
      ensures r.Done? ==> items == r.items && !broken
    {
      if found == None {
        hdl, broken := [], true;
        return Code(1);
      }
      var file := found.value;
      hdl, broken := file, false;
      if |file| < 4 {
        broken := true;
        return Code(2);
      }
      if file[..4] != MAGIC {
        return Code(3);
      }
      if |file| < 16 {
        broken := true;
        return Code(2);
      }
      var pos: int, count := GetInt32(file[8..12]), GetInt32(file[12..16]);
      var stack: seq<Bytes> := [];
      var i := 0;
      while i < count
        invariant 0 <= i && (i <= count || i == 0) && !broken && hdl == file
        invariant ReadToc(file, pos, if count < i then 0 else count - i, stack, items) == OpenArchive(file)
      {
        match DecodeEntry(file, pos) {
          case ShortRead =>
            broken := true;
            return Code(4);
          case LongName => return Code(5);
          case NegativeLength => return Undefined;
          case Decoded(entry, next) =>
            if entry.file.size != 0 {
              items := items[FullPath(stack, entry.name) := entry.file];
            } else if entry.file.decSize == 0 {
              if entry.name != UP {
                stack := stack + [entry.name];
              } else if stack == [] {
                return Undefined;
              } else {
                stack := DropLast(stack);
              }
            }
            pos := next;
        }
        i := i + 1;
      }
      return Done(items);
    }

    method ReadEntry(decompress: Bytes -> Option<Bytes>, name: Bytes) returns (r: Content)
      modifies this`broken
      ensures r == if broken && name in items then Unreadable else EntryContent(hdl, items, decompress, name)
      ensures broken == (old(broken) || r.Unreadable?)
    {
      if name !in items {
        return Missing;
      }
      var item := items[name];
      if broken || !InFile(hdl, item) {
        broken := true;
        return Unreadable;
      }
      return Decompressed(decompress, item, hdl[item.offset..item.offset + item.size]);
    }
  }
}
