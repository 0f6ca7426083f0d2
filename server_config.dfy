/**
 * The server settings of `arcgame/config/server_config.py`: a dictionary
 * of setting values with the map rotation, a list of map names, stored
 * under `sv_map_rotation`.
 */
module ServerConfig {
  import opened ListView

  /** The values a setting can hold in the defaults: numbers, text, flags and the rotation list. */
  datatype Value = Int(i: int) | Text(s: string) | Flag(b: bool) | Names(names: seq<string>)

  const RotationKey := "sv_map_rotation"

  /** The default settings. */
  const Defaults: map<string, Value> := map[
    "sv_name" := Text("DDNet Pygame Server"), "sv_hostname" := Text("localhost"),
    "sv_port" := Int(8303), "sv_max_clients" := Int(16), "sv_max_clients_per_ip" := Int(4),
    "sv_gametype" := Text("DM"), "sv_map" := Text("dm1"), "sv_scorelimit" := Int(10),
    "sv_timelimit" := Int(0),
    RotationKey := Names(["dm1", "dm2", "dm6", "ctf1", "ctf2", "ctf3"]),
    "sv_map_vote" := Flag(true), "sv_map_voting" := Flag(true),
    "sv_player_demo_record" := Flag(false), "sv_player_name" := Text("unnamed"),
    "sv_emoticon_delay" := Int(500), "sv_tournament_mode" := Int(0), "sv_spam" := Int(5),
    "sv_inactivekick" := Int(0), "sv_inactivekick_time" := Int(3),
    "sv_team_damage" := Flag(false), "sv_team" := Int(2), "sv_powerups" := Flag(true),
    "sv_warmup" := Flag(false), "sv_warmup_duration" := Int(30),
    "sv_rcon_password" := Text(""), "sv_rcon_max_tries" := Int(3), "sv_rcon_bantime" := Int(5),
    "sv_register" := Flag(true), "sv_broadcast" := Flag(false),
    "sv_save_games" := Flag(true), "sv_save_chat" := Flag(true)]

  /** The `ServerConfig` object: its settings dictionary. */
  class Config {
    var settings: map<string, Value>

    /** The defaults (loading a settings file is not modelled). */
    constructor ()
      ensures settings == Defaults
    {
      settings := Defaults;
    }

    /** `get(key, default)`: the stored value, or `default` for a key that is not set. */
    function Get(key: string, default: Value): (r: Value)
      reads this
      ensures key in settings ==> r == settings[key]
      ensures key !in settings ==> r == default
    {
      if key in settings then settings[key] else default
    }

    /** `set(key, value)`: a later `get` of the key returns the value; other keys are unchanged. */
    method Set(key: string, value: Value)
      modifies this
      ensures settings == old(settings)[key := value]
      ensures forall d :: Get(key, d) == value
      ensures forall k, d :: k != key ==> Get(k, d) == old(Get(k, d))
    {
      settings := settings[key := value];
    }

    /** The rotation, when the setting holds a list of names. */
    function Rotation(): (r: seq<string>)
      requires RotationKey in settings && settings[RotationKey].Names?
      reads this
    {
      settings[RotationKey].names
    }

    /**
     * `add_map_to_rotation`: appends the name unless it is already in the
     * rotation. Reports false, changing nothing, when the setting does not
     * hold a list (the source raises there).
     */
    method AddMapToRotation(name: string) returns (ok: bool)
      modifies this
      ensures ok <==> RotationKey in old(settings) && old(settings)[RotationKey].Names?
      ensures !ok ==> settings == old(settings)
      ensures ok ==> settings.Keys == old(settings.Keys) && RotationKey in settings && settings[RotationKey].Names?
      ensures ok ==> forall k :: k in settings && k != RotationKey ==> settings[k] == old(settings)[k]
      ensures ok ==> Rotation() == if name in old(Rotation()) then old(Rotation()) else old(Rotation()) + [name]
      ensures ok ==> name in Rotation()
      ensures ok && NoDuplicates(old(Rotation())) ==> NoDuplicates(Rotation())
    {
      if RotationKey !in settings || !settings[RotationKey].Names? {
        return false;
      }
      var rotation := settings[RotationKey].names;
      if name !in rotation {
        settings := settings[RotationKey := Names(rotation + [name])];
      }
      return true;
    }

    /**
     * `remove_map_from_rotation`: removes the first occurrence of the name,
     * when there is one. Reports false, changing nothing, when the setting
     * does not hold a list (the source raises there).
     */
    method RemoveMapFromRotation(name: string) returns (ok: bool)
      modifies this
      ensures ok <==> RotationKey in old(settings) && old(settings)[RotationKey].Names?
      ensures !ok ==> settings == old(settings)
      ensures ok ==> settings.Keys == old(settings.Keys) && RotationKey in settings && settings[RotationKey].Names?
      ensures ok ==> forall k :: k in settings && k != RotationKey ==> settings[k] == old(settings)[k]
      ensures ok && name !in old(Rotation()) ==> Rotation() == old(Rotation())
      ensures ok && name in old(Rotation()) ==> Rotation() == RemoveFirst(old(Rotation()), name)
      ensures ok && NoDuplicates(old(Rotation())) ==> name !in Rotation() && NoDuplicates(Rotation())
    {
      if RotationKey !in settings || !settings[RotationKey].Names? {
        return false;
      }
      var rotation := settings[RotationKey].names;
      if name in rotation {
        if NoDuplicates(rotation) {
          RemoveFirstFromUnique(rotation, name);
        }
        settings := settings[RotationKey := Names(RemoveFirst(rotation, name))];
      }
      return true;
    }

    /** `set_map_rotation`: the rotation becomes `maps` as given, duplicates included. */
    method SetMapRotation(maps: seq<string>)
      modifies this
      ensures settings == old(settings)[RotationKey := Names(maps)]
      ensures Rotation() == maps
    {
      settings := settings[RotationKey := Names(maps)];
    }
  }
}
