/**
 The steps by which the GPS server turns a position into its two lines. Each is printed into a buffer
 of 128 bytes, so that a line of more than 127 characters loses its end.
 */
module LocalGps {
  import opened Decimal
  import opened Nmea

  method Degrees(x: real) returns (d: Dms)
    requires x >= 0.0
    ensures d == Split(x)
  {
    var o := x;
    var deg := o.Floor;
    o := 60.0 * (o - deg as real);
    var min := o.Floor;
    o := 10000.0 * (o - min as real);
    d := Dms(deg, min, o.Floor);
  }

  /** The letter of the hemisphere, and the coordinate without its sign. */
  method Hemisphere(x: real, negative: string, positive: string) returns (d: Dms, letter: string)
    ensures d == Split(Abs(x)) && letter == if x < 0.0 then negative else positive
  {
    var o;
    if x < 0.0 {
      o, letter := -x, negative;
    } else {
      o, letter := x, positive;
    }
    d := Degrees(o);
  }

  method PrintRmc(tm: Clock, latitude: real, longitude: real, bearing: real) returns (line: string)
    ensures line == Cut(Sentence(Rmc(tm, latitude, longitude, bearing)))
  {
    var lat, cLat := Hemisphere(latitude, "S", "N");
    var lng, cLng := Hemisphere(longitude, "W", "E");
    line := Cut(Sentence(Line(Three(tm.hour, tm.minute, tm.second), Text(lat), cLat, Text(lng), cLng,
                              Fixed(0.0), Fixed(bearing), Three(tm.day, tm.month, tm.year))));
  }

  /** No line is printed for a precision outside 0 to 200. */
  method PrintGga(tm: Clock, latitude: real, longitude: real, precision: real, altitude: real) returns (line: string)
    ensures line == if 0.0 <= precision <= 200.0 then Cut(Sentence(Gga(tm, latitude, longitude, precision.Floor, altitude))) else ""
  {
    var lat, cLat := Hemisphere(latitude, "S", "N");
    var lng, cLng := Hemisphere(longitude, "W", "E");
    if precision < 0.0 || precision > 200.0 {
      return "";
    }
    line := Cut(Sentence(GgaLine(Three(tm.hour, tm.minute, tm.second), Text(lat), cLat, Text(lng), cLng,
                                 Padded(precision.Floor, 1), Fixed(altitude))));
  }
}
