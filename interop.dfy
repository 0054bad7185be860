/**
  What the bridge makes of the firmware's messages: every topic the station
  uses is classified as telemetry by the bridge, and the bridge reads the
  station's DEVICE_ID back out of it.
*/
module Interop {
  import Firmware
  import Bridge
  import Wrappers

  lemma StationTopicsSeenByBridge(c: Firmware.Channel)
    ensures Bridge.Classify(Firmware.Topic(c)) == "telemetry"
    ensures Bridge.TopicDeviceId(Firmware.Topic(c)) == Firmware.DeviceId
  {
    var t := Firmware.Topic(c);
    assert t == "classroom" + "/" + Firmware.DeviceId + ("/" + Firmware.ChannelSuffix(c));
    assert t[..|"classroom/"|] == "classroom/";
    Bridge.DeviceIdOfSegments("classroom", Firmware.DeviceId, "/" + Firmware.ChannelSuffix(c));
  }

  /**
    The status message that setup() hands to `client.publish` would, if the
    broker delivered it to the bridge, be handled as telemetry from ESP32_01.
  */
  lemma OnlineStatusLogged<J>(decoded: Wrappers.Option<J>, now: int)
    ensures var p := Firmware.StatusPublication("online");
      var h := Bridge.OnMessage(p.topic, p.payload, decoded, now);
      h.record.kind == "telemetry" && h.log == Bridge.TelemetryLog("ESP32_01")
  {
    StationTopicsSeenByBridge(Firmware.StatusChannel);
  }
}
