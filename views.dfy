/**
  * The download listing of `DownloadView` in frontend/views.py: each file
  * of the downloads directory with its size written in B, KiB, MiB or GiB.
  * The directory listing and the file sizes are the input; the label uses
  * Python's `round`, which rounds halves to the even neighbour.
  */
module Views {
  import opened Text

  const KiB: nat := 1024
  const MiB: nat := 1024 * 1024
  const GiB: nat := 1024 * 1024 * 1024

  /** `r` is the integer nearest to `n / d`, the even one when `n / d` lies halfway. */
  predicate IsNearestEven(r: int, n: int, d: int) {
    var e := n - r * d;
    -d <= 2 * e <= d && (2 * e == d || 2 * e == -d ==> r % 2 == 0)
  }

  /** Python's `round(n / d)` on exact quotients. */
  function RoundHalfEven(n: nat, d: nat): (r: nat)
    requires d > 0
    ensures IsNearestEven(r, n, d)
  {
    var q, rem := n / d, n % d;
    assert n - q * d == rem;
    assert n - (q + 1) * d == rem - d;
    if 2 * rem < d then q
    else if 2 * rem > d then q + 1
    else if q % 2 == 0 then q
    else q + 1
  }

  lemma MulAtLeast(t: int, d: int)
    requires t >= 1 && d > 0
    ensures t * d >= d && (t >= 2 ==> t * d >= 2 * d)
  {
    assert t * d == (t - 1) * d + d;
    if t >= 2 {
      assert (t - 1) * d == (t - 2) * d + d;
    }
  }

  /** Nearest-even roundings of the same quotient one unit apart cannot both exist. */
  lemma NearestEvenOrdered(r1: int, r2: int, n: int, d: int)
    requires d > 0 && IsNearestEven(r1, n, d) && IsNearestEven(r2, n, d)
    ensures r1 <= r2
  {
    if r1 > r2 {
      var t := r1 - r2;
      var e1, e2 := n - r1 * d, n - r2 * d;
      assert e2 - e1 == t * d;
      MulAtLeast(t, d);
    }
  }

  /** There is one nearest-even integer, so the rounding is determined by the quotient alone. */
  lemma NearestEvenUnique(r1: int, r2: int, n: int, d: int)
    requires d > 0 && IsNearestEven(r1, n, d) && IsNearestEven(r2, n, d)
    ensures r1 == r2
  {
    NearestEvenOrdered(r1, r2, n, d);
    NearestEvenOrdered(r2, r1, n, d);
  }

  /** `str(count) + ' ' + unit`. */
  function Label(count: nat, unit: string): string {
    NatToString(count) + " " + unit
  }

  /** The size label of `DownloadView`: exact bytes below 1 KiB, else the rounded count of the largest unit reached. */
  function SizeLabel(size: nat): (text: string)
    ensures exists count: nat :: text == Label(count, UnitOf(size).0)
  {
    var unit := UnitOf(size).0;
    if size < KiB then Label(size, "B")
    else if size < MiB then Label(RoundHalfEven(size, KiB), "KiB")
    else if size < GiB then Label(RoundHalfEven(size, MiB), "MiB")
    else Label(RoundHalfEven(size, GiB), "GiB")
  }

  /** The unit a size is written in: the largest of B, KiB, MiB and GiB not above it. */
  function UnitOf(size: nat): (unit: (string, nat))
    ensures unit.1 > 0 && (size >= KiB ==> unit.1 <= size)
    ensures unit.1 < GiB ==> size < unit.1 * KiB
  {
    if size < KiB then ("B", 1)
    else if size < MiB then ("KiB", KiB)
    else if size < GiB then ("MiB", MiB)
    else ("GiB", GiB)
  }

  /**
    * The label is the number of units nearest to the size (ties to even),
    * in decimal, a space and the unit; below 1 KiB it is the size itself.
    */
  lemma SizeLabelMeaning(size: nat)
    ensures exists v: nat ::
      IsNearestEven(v, size, UnitOf(size).1) && SizeLabel(size) == Label(v, UnitOf(size).0)
    ensures size < KiB ==> SizeLabel(size) == Label(size, "B")
  {
    var d := UnitOf(size).1;
    var v := if size < KiB then size else RoundHalfEven(size, d);
    assert IsNearestEven(v, size, d);
    assert SizeLabel(size) == Label(v, UnitOf(size).0);
  }

  /** Below GiB the count never exceeds 1024 units and is at least one: 2^20 - 1 bytes is 1024 KiB, not 1 MiB. */
  lemma SizeLabelCountBounds(size: nat)
    requires KiB <= size < GiB
    ensures 1 <= RoundHalfEven(size, UnitOf(size).1) <= 1024
  {
    var d := UnitOf(size).1;
    var r := RoundHalfEven(size, d);
    assert size < 1024 * d;
  }

  /** Ties go to the even count, and the unit only changes at a power of 1024. */
  lemma SizeLabelExamples()
    ensures SizeLabel(1023) == Label(1023, "B")
    ensures SizeLabel(1025) == Label(1, "KiB")
    ensures SizeLabel(1536) == Label(2, "KiB")
    ensures SizeLabel(2560) == Label(2, "KiB")
    ensures SizeLabel(MiB - 1) == Label(1024, "KiB")
    ensures SizeLabel(5 * GiB) == Label(5, "GiB")
  {
    assert RoundHalfEven(1025, KiB) == 1;
    assert RoundHalfEven(1536, KiB) == 2;
    assert RoundHalfEven(2560, KiB) == 2;
    assert RoundHalfEven(MiB - 1, KiB) == 1024;
    assert RoundHalfEven(5 * GiB, GiB) == 5;
  }

  /** A directory entry: the file name and its size in bytes (`os.path.getsize`). */
  datatype DirEntry = DirEntry(name: string, size: nat)

  /** An entry of `file_list` in the template context. */
  datatype Listed = Listed(name: string, size: string)

  /** The listing loop: one entry per file, in listing order, with its name and size label. */
  method FileList(files: seq<DirEntry>) returns (fileList: seq<Listed>)
    ensures |fileList| == |files|
    ensures forall k | 0 <= k < |files| :: fileList[k] == Listed(files[k].name, SizeLabel(files[k].size))
  {
    fileList := [];
    for k := 0 to |files|
      invariant |fileList| == k
      invariant forall j | 0 <= j < k :: fileList[j] == Listed(files[j].name, SizeLabel(files[j].size))
    {
      var size := files[k].size;
      var sizeText: string;
      if size < KiB {
        sizeText := Label(size, "B");
      } else if size < MiB {
        sizeText := Label(RoundHalfEven(size, KiB), "KiB");
      } else if size < GiB {
        sizeText := Label(RoundHalfEven(size, MiB), "MiB");
      } else {
        sizeText := Label(RoundHalfEven(size, GiB), "GiB");
      }
      fileList := fileList + [Listed(files[k].name, sizeText)];
    }
  }
}
