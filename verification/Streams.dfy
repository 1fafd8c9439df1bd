/** An input stream over a string, with the state bits `std::getline` reads and sets. */
module Streams {
  import opened Text

  class InputStream {
    const data: string
    var pos: nat
    var eof: bool
    var fail: bool

    ghost predicate Valid()
      reads this
    {
      pos <= |data| && (eof ==> pos == |data|)
    }

    /** The characters not yet extracted. */
    ghost function Rest(): string
      requires Valid()
      reads this
    {
      data[pos..]
    }

    constructor (data: string)
      ensures Valid() && this.data == data && pos == 0 && !eof && !fail && Rest() == data
    {
      this.data, pos, eof, fail := data, 0, false, false;
    }

    /** Reads up to the next delim, which is dropped, or to the end, which sets eof. Extracting
        nothing sets fail. A stream that is not good only fails, and leaves the token as it was. */
    method GetLine(delim: char, previous: string) returns (token: string)
      requires Valid()
      modifies this
      ensures Valid()
      ensures old(eof || fail) ==> token == previous && fail && eof == old(eof) && pos == old(pos)
      ensures old(!eof && !fail) ==>
        && delim !in token
        && old(Rest()) == token + (if eof then "" else [delim]) + Rest()
        && (eof ==> Rest() == "")
        && fail == (old(Rest()) == "")
    {
      if eof || fail {
        fail := true;
        return previous;
      }
      var from := pos;
      token := "";
      while pos < |data| && data[pos] != delim
        invariant from <= pos <= |data| && !eof && !fail
        invariant token == data[from..pos] && delim !in token
      {
        token := token + [data[pos]];
        pos := pos + 1;
      }
      assert data[from..] == data[from..pos] + data[pos..];
      if pos < |data| {
        assert data[pos..] == [delim] + data[pos + 1..];
        pos := pos + 1;
      } else {
        eof := true;
        fail := from == pos;
      }
    }
  }
}
